/** The Flask API helpers: case-insensitive query-argument lookup, environment
    lookup with a default, the development-mode switch and the dictionary merge.
    The request's arguments and the process environment are passed in. */
module ApiUtils {
  import opened Wrappers
  import opened PyText

  /** A request's query arguments: each distinct key, in order, with the first
      value given for it (what `request.args.get(key)` returns). */
  type Args = seq<(string, string)>

  /** `get_request_arg_casei(find)`: the value of the first argument whose key
      equals `find` ignoring case, or None. */
  function GetRequestArgCasei(args: Args, find: string): (r: Option<string>)
  {
    if args == [] then None
    else if Lower(args[0].0) == Lower(find) then Some(args[0].1)
    else GetRequestArgCasei(args[1..], find)
  }

  /** The lookup finds the first matching key, and finds nothing exactly when
      no key matches. */
  lemma {:induction false} GetRequestArgCaseiFirstMatch(args: Args, find: string)
    ensures GetRequestArgCasei(args, find).None? <==>
      forall i :: 0 <= i < |args| ==> Lower(args[i].0) != Lower(find)
    ensures GetRequestArgCasei(args, find).Some? ==>
      exists i :: 0 <= i < |args| && Lower(args[i].0) == Lower(find) &&
        GetRequestArgCasei(args, find).value == args[i].1 &&
        forall j :: 0 <= j < i ==> Lower(args[j].0) != Lower(find)
    decreases |args|
  {
    if args != [] && Lower(args[0].0) != Lower(find) {
      GetRequestArgCaseiFirstMatch(args[1..], find);
      if GetRequestArgCasei(args, find).Some? {
        var i :| 0 <= i < |args[1..]| && Lower(args[1..][i].0) == Lower(find) &&
          GetRequestArgCasei(args, find).value == args[1..][i].1 &&
          forall j :: 0 <= j < i ==> Lower(args[1..][j].0) != Lower(find);
        assert forall j :: 1 <= j < i + 1 ==> args[j] == args[1..][j - 1];
      } else {
        forall i | 0 <= i < |args| ensures Lower(args[i].0) != Lower(find) {
          if i > 0 {
            assert args[i] == args[1..][i - 1];
          }
        }
      }
    }
  }

  /** The lookup ignores the case of the key asked for. */
  lemma GetRequestArgCaseiIgnoresCase(args: Args, find: string)
    ensures GetRequestArgCasei(args, find) == GetRequestArgCasei(args, Lower(find))
  {
    LowerIdempotent(find);
    CaseiSameKey(args, find, Lower(find));
  }

  lemma {:induction false} CaseiSameKey(args: Args, a: string, b: string)
    requires Lower(a) == Lower(b)
    ensures GetRequestArgCasei(args, a) == GetRequestArgCasei(args, b)
    decreases |args|
  {
    if args != [] {
      CaseiSameKey(args[1..], a, b);
    }
  }

  /** `get_env(k, d)`: the environment value, or the default when absent. */
  function GetEnv(env: map<string, string>, k: string, d: Option<string>): (r: Option<string>)
    ensures k in env ==> r == Some(env[k])
    ensures k !in env ==> r == d
  {
    if k !in env then d else Some(env[k])
  }

  /** `is_dev()`: the environment says exactly "development". */
  function IsDev(env: map<string, string>): (r: bool)
    ensures r <==> "ENVIRONMENT" in env && env["ENVIRONMENT"] == "development"
  {
    GetEnv(env, "ENVIRONMENT", None) == Some("development")
  }

  /** `merge_dicts(x, y, z)`: a copy of `x` updated with `y`, then with `z`
      when given. Later dictionaries win; the arguments are values and stay
      as they were. */
  method MergeDicts<K, V>(x: map<K, V>, y: map<K, V>, z: Option<map<K, V>>) returns (a: map<K, V>)
    ensures z.None? ==> a.Keys == x.Keys + y.Keys
    ensures z.Some? ==> a.Keys == x.Keys + y.Keys + z.value.Keys
    ensures forall k :: k in a ==>
      if z.Some? && k in z.value then a[k] == z.value[k]
      else if k in y then a[k] == y[k]
      else a[k] == x[k]
  {
    a := x;
    a := a + y;
    if z.Some? {
      a := a + z.value;
    }
  }
}
