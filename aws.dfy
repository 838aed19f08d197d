/** `get_credentials` of the Flask API: the AWS credentials file is read line
    by line into a dictionary of profiles, each a dictionary of settings, and
    the access and secret keys of one profile are returned. The file's lines
    are passed in, each as Python's file iteration gives it (with its line
    break, when it has one). */
module Aws {
  import opened Wrappers
  import opened PyText

  type Profiles = map<string, map<string, string>>

  datatype Credentials = Credentials(accessKey: string, secretKey: string)

  const Malformed := ValueError("Malformed ~/.aws/config file")

  // ---------------------------------------------------------------------------
  // The profile header pattern `(?<=\[)[^\[\]]+`

  predicate IsBracket(c: char) {
    c == '[' || c == ']'
  }

  /** A match of the pattern can start at `p`: just after a '[' and on a
      character that is not a bracket. */
  predicate HeaderAt(line: string, p: int) {
    1 <= p < |line| && line[p - 1] == '[' && !IsBracket(line[p])
  }

  /** The longest prefix of `s` without brackets: `[^\[\]]+` matched greedily. */
  function BracketFreePrefix(s: string): (r: string)
    ensures r <= s
    ensures forall i :: 0 <= i < |r| ==> !IsBracket(r[i])
    ensures |r| == |s| || IsBracket(s[|r|])
    decreases |s|
  {
    if s == [] || IsBracket(s[0]) then [] else [s[0]] + BracketFreePrefix(s[1..])
  }

  function MatchFrom(line: string, p: nat): Option<string>
    requires 1 <= p
    decreases |line| - p
  {
    if p >= |line| then None
    else if HeaderAt(line, p) then Some(BracketFreePrefix(line[p..]))
    else MatchFrom(line, p + 1)
  }

  /** `profile_pattern.search(line)`, the matched text when there is one. */
  function ProfileMatch(line: string): Option<string> {
    MatchFrom(line, 1)
  }

  /** The search finds the leftmost place a match can start, and from there
      takes every character up to the next bracket or the end of the line,
      the line break included; there is a match exactly when some '[' is
      followed by a character that is not a bracket. */
  lemma ProfileMatchCharacterised(line: string)
    ensures ProfileMatch(line).Some? <==> exists p :: HeaderAt(line, p)
    ensures ProfileMatch(line).Some? ==>
      exists p :: HeaderAt(line, p) && (forall q :: 1 <= q < p ==> !HeaderAt(line, q)) &&
        ProfileMatch(line).value == BracketFreePrefix(line[p..]) && |ProfileMatch(line).value| >= 1
  {
    MatchFromCharacterised(line, 1);
  }

  lemma {:induction false} MatchFromCharacterised(line: string, p: nat)
    requires 1 <= p
    requires forall q :: 1 <= q < p ==> !HeaderAt(line, q)
    ensures MatchFrom(line, p).Some? <==> exists q :: HeaderAt(line, q)
    ensures MatchFrom(line, p).Some? ==>
      exists q :: HeaderAt(line, q) && (forall q' :: 1 <= q' < q ==> !HeaderAt(line, q')) &&
        MatchFrom(line, p).value == BracketFreePrefix(line[q..]) && |MatchFrom(line, p).value| >= 1
    decreases |line| - p
  {
    if p >= |line| {
      assert forall q :: HeaderAt(line, q) ==> 1 <= q < p;
    } else if HeaderAt(line, p) {
      assert line[p..][0] == line[p];
      assert |BracketFreePrefix(line[p..])| >= 1;
    } else {
      MatchFromCharacterised(line, p + 1);
    }
  }

  /** `[default]` names the profile `default`. */
  lemma ProfileMatchExample()
    ensures ProfileMatch("[default]\n") == Some("default")
  {
    var line := "[default]\n";
    assert HeaderAt(line, 1);
    BracketFreePrefixUpTo(line[1..], 7);
    assert line[1..][..7] == "default";
  }

  /** The bracket-free prefix ends at the first bracket. */
  lemma {:induction false} BracketFreePrefixUpTo(s: string, k: nat)
    requires k < |s| && IsBracket(s[k])
    requires forall i :: 0 <= i < k ==> !IsBracket(s[i])
    ensures BracketFreePrefix(s) == s[..k]
    decreases k
  {
    if k > 0 {
      BracketFreePrefixUpTo(s[1..], k - 1);
      assert s[..k] == [s[0]] + s[1..][..k - 1];
    }
  }

  // ---------------------------------------------------------------------------
  // The parsing loop

  /** `all_creds` and `current_name` between two lines. The current profile,
      once there is one, has an entry. */
  datatype ParseState = ParseState(creds: Profiles, current: Option<string>)

  predicate Valid(st: ParseState) {
    st.current.Some? ==> st.current.value in st.creds
  }

  const Start := ParseState(map[], None)

  /** `key, value = tuple(line.split('='))`: exactly two pieces, stripped. */
  function Setting(line: string): Result<(string, string)> {
    var parts := Split(line, '=');
    if |parts| < 2 then Err(ValueError("not enough values to unpack (expected 2, got 1)"))
    else if |parts| > 2 then Err(ValueError("too many values to unpack (expected 2)"))
    else Ok((Strip(parts[0]), Strip(parts[1])))
  }

  /** One pass of the loop body. */
  function Step(st: ParseState, line: string): (r: Result<ParseState>)
    requires Valid(st)
    ensures r.Ok? ==> Valid(r.value)
  {
    var m := ProfileMatch(line);
    if m.Some? then Ok(ParseState(st.creds[m.value := map[]], Some(m.value)))
    else if st.current.None? then Err(Malformed)
    else if Strip(line) == "" then Ok(st)
    else
      var kv :- Setting(line);
      var name := st.current.value;
      Ok(ParseState(st.creds[name := st.creds[name][kv.0 := kv.1]], st.current))
  }

  /** The loop run over `lines` from `st`. */
  function ParseFrom(st: ParseState, lines: seq<string>): (r: Result<ParseState>)
    requires Valid(st)
    ensures r.Ok? ==> Valid(r.value)
    decreases |lines|
  {
    if lines == [] then Ok(st)
    else
      var next :- Step(st, lines[0]);
      ParseFrom(next, lines[1..])
  }

  /** The loop of `get_credentials`, from nothing read and no profile. */
  method ParseProfiles(lines: seq<string>) returns (r: Result<Profiles>)
    ensures r.Ok? <==> ParseFrom(Start, lines).Ok?
    ensures r.Ok? ==> r.value == ParseFrom(Start, lines).value.creds
    ensures r.Err? ==> r.error == ParseFrom(Start, lines).error
  {
    var allCreds: Profiles := map[];
    var currentName: Option<string> := None;
    var i := 0;
    while i < |lines|
      invariant 0 <= i <= |lines|
      invariant Valid(ParseState(allCreds, currentName))
      invariant ParseFrom(ParseState(allCreds, currentName), lines[i..]) == ParseFrom(Start, lines)
    {
      var line := lines[i];
      assert lines[i..][0] == line && lines[i..][1..] == lines[i + 1..];
      var m := ProfileMatch(line);
      if m.Some? {
        currentName := m;
        allCreds := allCreds[m.value := map[]];
      } else if currentName.None? {
        return Err(Malformed);
      } else if Strip(line) == "" {
      } else {
        var kv := Setting(line);
        if kv.Err? {
          return Err(kv.error);
        }
        var name := currentName.value;
        allCreds := allCreds[name := allCreds[name][kv.value.0 := kv.value.1]];
      }
      i := i + 1;
    }
    r := Ok(allCreds);
  }

  /** The loop over two runs of lines is the loop over the first, continued
      over the second. */
  lemma {:induction false} ParseFromAppend(st: ParseState, a: seq<string>, b: seq<string>)
    requires Valid(st)
    ensures ParseFrom(st, a + b) ==
      (if ParseFrom(st, a).Err? then ParseFrom(st, a) else ParseFrom(ParseFrom(st, a).value, b))
    decreases |a|
  {
    if a == [] {
      assert a + b == b;
    } else {
      assert (a + b)[0] == a[0] && (a + b)[1..] == a[1..] + b;
      if Step(st, a[0]).Ok? {
        ParseFromAppend(Step(st, a[0]).value, a[1..], b);
      }
    }
  }

  /** A line before the first profile header, a blank one included, makes
      the file malformed. */
  lemma MalformedBeforeFirstProfile(line: string, rest: seq<string>)
    requires ProfileMatch(line).None?
    ensures ParseFrom(Start, [line] + rest) == Err(Malformed)
  {
  }

  /** Once a profile is open, a blank line changes nothing. */
  lemma BlankLinesSkipped(st: ParseState, line: string, rest: seq<string>)
    requires Valid(st) && st.current.Some?
    requires ProfileMatch(line).None? && Strip(line) == ""
    ensures ParseFrom(st, [line] + rest) == ParseFrom(st, rest)
  {
    assert ([line] + rest)[1..] == rest;
  }

  /** Lines that are neither headers nor blank, and each split into a key and
      a value. */
  predicate SettingLines(body: seq<string>) {
    forall i :: 0 <= i < |body| ==>
      ProfileMatch(body[i]).None? && (Strip(body[i]) == "" || Setting(body[i]).Ok?)
  }

  /** The settings of a profile after one more of its lines. */
  function ApplySetting(m: map<string, string>, line: string): map<string, string>
    requires Strip(line) == "" || Setting(line).Ok?
  {
    if Strip(line) == "" then m else m[Setting(line).value.0 := Setting(line).value.1]
  }

  /** The settings such lines give, a later line winning over an earlier one
      with the same key. */
  function Settings(m: map<string, string>, body: seq<string>): map<string, string>
    requires SettingLines(body)
    decreases |body|
  {
    if body == [] then m else Settings(ApplySetting(m, body[0]), body[1..])
  }

  /** A header followed by setting lines: the profile it names holds exactly
      those settings, whatever it held before (reopening a profile starts it
      afresh), and every other profile is as it was. */
  lemma HeaderStartsProfileAfresh(st: ParseState, header: string, body: seq<string>)
    requires Valid(st) && ProfileMatch(header).Some?
    requires SettingLines(body)
    ensures var name := ProfileMatch(header).value;
      var r := ParseFrom(st, [header] + body);
      r.Ok? && r.value.current == Some(name) &&
      r.value.creds == st.creds[name := Settings(map[], body)]
  {
    var name := ProfileMatch(header).value;
    assert ([header] + body)[1..] == body;
    SettingsRun(st.creds, name, map[], body);
  }

  lemma {:induction false} SettingsRun(creds: Profiles, name: string, m: map<string, string>, body: seq<string>)
    requires SettingLines(body)
    ensures var r := ParseFrom(ParseState(creds[name := m], Some(name)), body);
      r.Ok? && r.value == ParseState(creds[name := Settings(m, body)], Some(name))
    decreases |body|
  {
    if body != [] {
      var m' := ApplySetting(m, body[0]);
      assert SettingLines(body[1..]) by {
        forall i | 0 <= i < |body[1..]| ensures body[1..][i] == body[i + 1] {}
      }
      StepInProfile(creds, name, m, body[0]);
      SettingsRun(creds, name, m', body[1..]);
    }
  }

  lemma StepInProfile(creds: Profiles, name: string, m: map<string, string>, line: string)
    requires ProfileMatch(line).None? && (Strip(line) == "" || Setting(line).Ok?)
    ensures Step(ParseState(creds[name := m], Some(name)), line) ==
      Ok(ParseState(creds[name := ApplySetting(m, line)], Some(name)))
  {
    var st := ParseState(creds[name := m], Some(name));
    assert st.creds[name] == m;
    if Strip(line) != "" {
      var kv := Setting(line).value;
      assert Step(st, line) == Ok(ParseState(st.creds[name := m[kv.0 := kv.1]], Some(name)));
      assert st.creds[name := m[kv.0 := kv.1]] == creds[name := m[kv.0 := kv.1]];
    } else {
      assert Step(st, line) == Ok(st);
      assert creds[name := m] == creds[name := ApplySetting(m, line)];
    }
  }

  /** A setting line that does not split into exactly one key and one value
      fails the whole read. */
  lemma BadSettingFails(st: ParseState, line: string, rest: seq<string>)
    requires Valid(st) && st.current.Some?
    requires ProfileMatch(line).None? && Strip(line) != "" && |Split(line, '=')| != 2
    ensures ParseFrom(st, [line] + rest).Err?
    ensures ParseFrom(st, [line] + rest).error.ValueError?
  {
  }

  // ---------------------------------------------------------------------------
  // get_credentials

  /** `profile or 'default'`. */
  function ProfileName(profile: Option<string>): (name: string)
    ensures profile.Some? && profile.value != "" ==> name == profile.value
    ensures profile.None? || profile.value == "" ==> name == "default"
  {
    if profile.None? || profile.value == "" then "default" else profile.value
  }

  /** `get_credentials(profile)` over the lines of the credentials file. */
  method GetCredentials(lines: seq<string>, profile: Option<string>) returns (r: Result<Credentials>)
    ensures ParseFrom(Start, lines).Err? ==> r == Err(ParseFrom(Start, lines).error)
    ensures ParseFrom(Start, lines).Ok? ==>
      var creds := ParseFrom(Start, lines).value.creds;
      var name := ProfileName(profile);
      (r.Ok? <==> name in creds && "aws_access_key_id" in creds[name] && "aws_secret_access_key" in creds[name]) &&
      (r.Ok? ==> r.value == Credentials(creds[name]["aws_access_key_id"], creds[name]["aws_secret_access_key"])) &&
      (r.Err? ==> r.error == ValueError("Unknown profile " + name))
  {
    var all := ParseProfiles(lines);
    if all.Err? {
      return Err(all.error);
    }
    var creds := all.value;
    var name := ProfileName(profile);
    if name in creds && "aws_access_key_id" in creds[name] && "aws_secret_access_key" in creds[name] {
      return Ok(Credentials(creds[name]["aws_access_key_id"], creds[name]["aws_secret_access_key"]));
    }
    r := Err(ValueError("Unknown profile " + name));
  }
}
