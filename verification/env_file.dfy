/** The smoke test's `.env` loader: the file is split on '\n' and each
    line, once trimmed, either assigns `KEY=value` into the process
    environment or is skipped. Modelled as a pure fold from the
    environment before loading to the environment after. */
module EnvFile {
  import opened JsValue
  import opened Text

  /** One `KEY=value` line, both sides trimmed. */
  datatype Assignment = Assignment(key: string, value: string)

  /** A trimmed line that is empty or starts with '#'. */
  predicate IsSkipped(trimmed: string) {
    trimmed == [] || trimmed[0] == '#'
  }

  /** What one line assigns, if anything. The key is everything before the
      first '=' and the value everything after it, each trimmed. */
  function ParseLine(line: string): (a: Option<Assignment>)
    ensures IsSkipped(Trim(line)) ==> a.None?
    ensures a.Some? ==> '=' !in a.value.key && IsTrimmed(a.value.key) && IsTrimmed(a.value.value)
  {
    ParseTrimmed(Trim(line))
  }

  /** The same, for a line already trimmed. */
  function ParseTrimmed(t: string): (a: Option<Assignment>)
    ensures IsSkipped(t) ==> a.None?
    ensures '=' !in t ==> a.None?
    ensures !IsSkipped(t) && '=' in t ==> a.Some?
    ensures a.Some? ==> '=' !in a.value.key && IsTrimmed(a.value.key) && IsTrimmed(a.value.value)
  {
    if IsSkipped(t) then None
    else
      var eq := IndexOf(t, '=');
      if eq.None? then None
      else
        var i := eq.value;
        NoCharInTrim(t[..i], '=');
        Some(Assignment(Trim(t[..i]), Trim(t[i + 1..])))
  }

  /** A line without '=' assigns nothing, whatever else it holds. */
  lemma NoEqualsNoAssignment(line: string)
    requires '=' !in line
    ensures ParseLine(line).None?
  {
    NoCharInTrim(line, '=');
  }

  lemma StripsKeepsOut(s: string, r: string, a: int, c: char)
    requires Strips(s, r, a)
    requires c !in s
    ensures c !in r
  {
    forall k | 0 <= k < |r|
      ensures r[k] != c
    {
      assert r[k] == s[a + k];
    }
  }

  lemma NoCharInTrim(s: string, c: char)
    requires c !in s
    ensures c !in Trim(s)
  {
    StripsKeepsOut(s, Trim(s), LeadingSpace(s), c);
  }

  /** A line written as `key=value`, with white space of any kind around
      the key and around the value, from a trimmed key without '=' (and not
      starting with '#') and a trimmed value, reads back as exactly that
      assignment; the value may itself contain '='. */
  lemma ParsePaddedLine(w1: string, key: string, w2: string, w3: string, value: string, w4: string)
    requires AllSpace(w1) && AllSpace(w2) && AllSpace(w3) && AllSpace(w4)
    requires '=' !in key && IsTrimmed(key) && IsTrimmed(value)
    requires key == [] || key[0] != '#'
    ensures ParseLine((w1 + key + w2) + "=" + (w3 + value + w4)) == Some(Assignment(key, value))
  {
    var k, v := w1 + key + w2, w3 + value + w4;
    assert !IsSpace('=');
    assert "=" == ['='];
    PaddedKey(w1, key, w2);
    PaddedValue(w3, value, w4);
    TrimJoin(k, '=', v);
    ParseJoined(k[LeadingSpace(k)..], v[..|v| - TrailingSpace(v)], key, value);
  }

  /** The trimmed line, as `trim` leaves it: what precedes the first '='
      trims to the key and what follows it to the value. */
  lemma ParseJoined(k: string, v: string, key: string, value: string)
    requires '=' !in k && Trim(k) == key && Trim(v) == value
    requires k == [] <==> key == []
    requires key != [] ==> k[0] == key[0] != '#'
    ensures ParseTrimmed(k + ['='] + v) == Some(Assignment(key, value))
  {
    FirstSeparator(k, '=', v);
    SplitsAtFirstEquals(k + ['='] + v, |k|);
  }

  /** The key side of a padded line: once its leading white space is gone,
      it holds no '=', starts like the key, and trims to the key. */
  lemma PaddedKey(w1: string, key: string, w2: string)
    requires AllSpace(w1) && AllSpace(w2) && '=' !in key && IsTrimmed(key)
    ensures var k := w1 + key + w2;
      && '=' !in k[LeadingSpace(k)..]
      && Trim(k[LeadingSpace(k)..]) == key
      && (k[LeadingSpace(k)..] == [] <==> key == [])
      && (key != [] ==> k[LeadingSpace(k)..][0] == key[0])
  {
    var k := w1 + key + w2;
    var L := LeadingSpace(k);
    forall j | 0 <= j < |k|
      ensures k[j] != '='
    {
      if j < |w1| {
        assert k[j] == w1[j];
      } else if j < |w1| + |key| {
        assert k[j] == key[j - |w1|];
      } else {
        assert k[j] == w2[j - |w1| - |key|];
      }
    }
    assert forall j :: 0 <= j < |k| - L ==> k[L..][j] == k[L + j];
    TrimPadded(w1, key, w2);
    TrimIdentity(key);
    TrimDropLeading(k);
    FirstOfTrim(k);
  }

  /** The value side of a padded line, once its trailing white space is
      gone, trims to the value. */
  lemma PaddedValue(w3: string, value: string, w4: string)
    requires AllSpace(w3) && AllSpace(w4) && IsTrimmed(value)
    ensures var v := w3 + value + w4;
      Trim(v[..|v| - TrailingSpace(v)]) == value
  {
    TrimPadded(w3, value, w4);
    TrimIdentity(value);
    TrimDropTrailing(w3 + value + w4);
  }

  /** `key=value` without any padding: the case the file is usually
      written in. */
  lemma ParseLineRoundTrip(key: string, value: string)
    requires '=' !in key && IsTrimmed(key) && IsTrimmed(value)
    requires key == [] || key[0] != '#'
    ensures ParseLine(key + "=" + value) == Some(Assignment(key, value))
  {
    var none: string := [];
    assert none + key + none == key;
    assert none + value + none == value;
    ParsePaddedLine(none, key, none, none, value, none);
  }

  lemma SplitsAtFirstEquals(t: string, i: nat)
    requires !IsSkipped(t) && IndexOf(t, '=') == Some(i)
    ensures ParseTrimmed(t) == Some(Assignment(Trim(t[..i]), Trim(t[i + 1..])))
  {
  }

  /** The parsed line assigns key `k`. */
  predicate Assigns(a: Option<Assignment>, k: string) {
    a.Some? && a.value.key == k
  }

  /** `process.env[key] = val` for a line that assigns; no change otherwise. */
  function ApplyLine(env: map<string, string>, a: Option<Assignment>): (env': map<string, string>)
    ensures a.None? ==> env' == env
    ensures a.Some? ==> a.value.key in env' && env'[a.value.key] == a.value.value
    ensures a.Some? ==> env'.Keys == env.Keys + {a.value.key}
    ensures forall k :: k in env && !Assigns(a, k) ==> k in env' && env'[k] == env[k]
  {
    if a.None? then env else env[a.value.key := a.value.value]
  }

  /** Every line of the file, parsed. */
  function ParseLines(lines: seq<string>): (ps: seq<Option<Assignment>>)
    ensures |ps| == |lines|
    ensures forall j :: 0 <= j < |lines| ==> ps[j] == ParseLine(lines[j])
  {
    seq(|lines|, j requires 0 <= j < |lines| => ParseLine(lines[j]))
  }

  /** The parsed lines applied in file order. */
  function LoadLines(env: map<string, string>, ps: seq<Option<Assignment>>): (env': map<string, string>)
    // No variable is ever removed, and a new one comes from some line.
    ensures env.Keys <= env'.Keys
    ensures forall k :: k in env' && k !in env ==> exists j :: 0 <= j < |ps| && Assigns(ps[j], k)
    decreases |ps|
  {
    if ps == [] then env
    else
      var env' := LoadLines(ApplyLine(env, ps[0]), ps[1..]);
      assert forall k :: k in env' && k !in env ==> exists j :: 0 <= j < |ps| && Assigns(ps[j], k) by {
        forall k | k in env' && k !in env
          ensures exists j :: 0 <= j < |ps| && Assigns(ps[j], k)
        {
          if k in ApplyLine(env, ps[0]) {
            assert Assigns(ps[0], k);
          } else {
            var j :| 0 <= j < |ps[1..]| && Assigns(ps[1..][j], k);
            assert Assigns(ps[j + 1], k);
          }
        }
      }
      env'
  }

  /** `loadEnv` on the file's text. */
  function LoadEnv(env: map<string, string>, content: string): (env': map<string, string>)
    // The file only adds or overwrites, and only keys some line assigns.
    ensures env.Keys <= env'.Keys
    ensures forall k :: k in env' && k !in env ==>
      exists line :: line in Split(content, '\n') && Assigns(ParseLine(line), k)
  {
    var lines := Split(content, '\n');
    var env' := LoadLines(env, ParseLines(lines));
    assert forall k :: k in env' && k !in env ==> exists line :: line in lines && Assigns(ParseLine(line), k) by {
      forall k | k in env' && k !in env
        ensures exists line :: line in lines && Assigns(ParseLine(line), k)
      {
        var j :| 0 <= j < |lines| && Assigns(ParseLines(lines)[j], k);
        assert lines[j] in lines;
      }
    }
    env'
  }

  /** A key no line assigns keeps whatever the environment held, including
      being absent. */
  lemma {:induction false} LoadLinesUntouched(env: map<string, string>, ps: seq<Option<Assignment>>, k: string)
    requires forall j :: 0 <= j < |ps| ==> !Assigns(ps[j], k)
    ensures k in LoadLines(env, ps) <==> k in env
    ensures k in env ==> LoadLines(env, ps)[k] == env[k]
    decreases |ps|
  {
    if ps != [] {
      LoadLinesUntouched(ApplyLine(env, ps[0]), ps[1..], k);
    }
  }

  /** The last line that assigns a key decides its value: a later line for
      the same key overwrites an earlier one. */
  lemma {:induction false} LoadLinesLastWins(env: map<string, string>, ps: seq<Option<Assignment>>, j: nat, k: string)
    requires j < |ps| && Assigns(ps[j], k)
    requires forall i :: j < i < |ps| ==> !Assigns(ps[i], k)
    ensures k in LoadLines(env, ps)
    ensures LoadLines(env, ps)[k] == ps[j].value.value
    decreases |ps|
  {
    var env' := ApplyLine(env, ps[0]);
    if j == 0 {
      LoadLinesUntouched(env', ps[1..], k);
    } else {
      LoadLinesLastWins(env', ps[1..], j - 1, k);
    }
  }

  /** At file level: the last line of the file that assigns `k` decides
      its value after loading. */
  lemma LoadEnvLastWins(env: map<string, string>, content: string, j: nat, k: string)
    requires j < |Split(content, '\n')| && Assigns(ParseLine(Split(content, '\n')[j]), k)
    requires forall i :: j < i < |Split(content, '\n')| ==> !Assigns(ParseLine(Split(content, '\n')[i]), k)
    ensures k in LoadEnv(env, content)
    ensures LoadEnv(env, content)[k] == ParseLine(Split(content, '\n')[j]).value.value
  {
    LoadLinesLastWins(env, ParseLines(Split(content, '\n')), j, k);
  }

  /** At file level: a variable no line of the file assigns keeps its
      previous value, or stays absent. */
  lemma LoadEnvUntouched(env: map<string, string>, content: string, k: string)
    requires forall i :: 0 <= i < |Split(content, '\n')| ==> !Assigns(ParseLine(Split(content, '\n')[i]), k)
    ensures k in LoadEnv(env, content) <==> k in env
    ensures k in env ==> LoadEnv(env, content)[k] == env[k]
  {
    LoadLinesUntouched(env, ParseLines(Split(content, '\n')), k);
  }
}
