/**
 * Reading a database credentials file (util/database_credentials.py): one
 * `key=value` assignment per line, blank lines and `#` comments skipped. The
 * file is given as the sequence of its lines; opening and reading it is I/O.
 */
module Credentials {
  import opened Wrappers
  import opened OrderedMaps
  import opened Text
  import Partition

  /** The message of the `ValueError` raised when `(key, value) = line.split('=', 1)` gets one part. */
  const UnpackMessage := "not enough values to unpack (expected 2, got 1)"

  /** A stripped line that contributes nothing: empty, or a comment. */
  predicate Ignored(line: string) {
    line == [] || line[0] == '#'
  }

  /**
   * One iteration of the loop: `Ok(None)` for a skipped line, `Ok(Some((key, value)))`
   * for an assignment, and the unpacking error for a line with no `=`.
   */
  function ParseLine(raw: string): (r: Result<Option<(string, string)>>)
    ensures r.Ok? && r.value.None? <==> Ignored(Strip(raw))
    ensures r.Err? <==> !Ignored(Strip(raw)) && '=' !in Strip(raw)
    ensures r.Err? ==> r.error == ValueError(UnpackMessage)
  {
    var line := Strip(raw);
    if Ignored(line) then Ok(None)
    else if '=' !in line then Err(ValueError(UnpackMessage))
    else
      var parts := SplitOnce(line, '=');
      Ok(Some((Strip(parts[0]), Strip(parts[1]))))
  }

  /** An assignment line is split at its first `=`, and the key and the value are each stripped. */
  lemma ParseLineAssigns(raw: string)
    requires ParseLine(raw).Ok? && ParseLine(raw).value.Some?
    ensures exists a: string, b: string {:trigger a + "=" + b} ::
              && Strip(raw) == a + "=" + b
              && '=' !in a
              && ParseLine(raw).value.value == (Strip(a), Strip(b))
  {
    var parts := SplitOnce(Strip(raw), '=');
    assert Strip(raw) == parts[0] + "=" + parts[1];
  }

  /** The line a credentials file holds for one assignment. */
  function FormatLine(key: string, value: string): string {
    key + "=" + value
  }

  /** A key that reads back as itself: no `=`, no whitespace at its ends, and not the start of a comment. */
  predicate GoodKey(key: string) {
    && '=' !in key
    && (key == [] || (!IsSpace(key[0]) && !IsSpace(key[|key| - 1]) && key[0] != '#'))
  }

  /** A value that reads back as itself: no whitespace at its ends (it may contain `=`). */
  predicate GoodValue(value: string) {
    value == [] || (!IsSpace(value[0]) && !IsSpace(value[|value| - 1]))
  }

  /** Splitting the first `=` off an assignment line gives back its key and its value. */
  lemma SplitAssignment(key: string, value: string)
    requires '=' !in key
    ensures SplitOnce(key + "=" + value, '=') == [key, value]
  {
    var s := key + "=" + value;
    assert s[|key|] == '=';
    var parts := SplitOnce(s, '=');
    var i := IndexOf(s, '=');
    assert forall k :: 0 <= k < |key| ==> s[k] == key[k];
    assert i == |key|;
    assert s[..i] == key && s[i + 1..] == value;
  }

  /** A line that strips to `a=b`, with no `=` in `a`, assigns the stripped `b` to the stripped `a`. */
  lemma ParseStripped(raw: string, a: string, b: string)
    requires Strip(raw) == a + "=" + b
    requires '=' !in a && (a == [] || a[0] != '#')
    ensures ParseLine(raw) == Ok(Some((Strip(a), Strip(b))))
  {
    var line := Strip(raw);
    assert line[|a|] == '=';
    assert line[0] == if a == [] then '=' else a[0];
    SplitAssignment(a, b);
  }

  /** A well-formed assignment parses back to its key and value, whatever `=` the value holds. */
  lemma ParseFormatted(key: string, value: string)
    requires GoodKey(key) && GoodValue(value)
    ensures ParseLine(FormatLine(key, value)) == Ok(Some((key, value)))
  {
    var line := FormatLine(key, value);
    assert line[0] == if key == [] then '=' else key[0];
    assert line[|line| - 1] == if value == [] then '=' else value[|value| - 1];
    StripIdempotent(line);
    StripIdempotent(key);
    StripIdempotent(value);
    ParseStripped(line, key, value);
  }

  /** Regrouping a padded line `p k p = p v p` around its middle part `k p = p v`. */
  lemma Regroup(p: string, k: string, e: string, v: string)
    ensures p + k + p + e + p + v + p == p + ((k + p) + e + (p + v)) + p
    ensures [] + k + p == k + p && p + v + [] == p + v
  {
  }

  /** Whitespace around the key, the `=` and the value does not change what a line assigns. */
  lemma ParseSpaced(key: string, value: string, pad: string)
    requires GoodKey(key) && GoodValue(value) && key != [] && value != []
    requires forall k :: 0 <= k < |pad| ==> IsSpace(pad[k])
    ensures ParseLine(pad + key + pad + "=" + pad + value + pad) == Ok(Some((key, value)))
  {
    var front := key + pad;
    var back := pad + value;
    var core := front + "=" + back;
    var line := pad + key + pad + "=" + pad + value + pad;
    Regroup(pad, key, "=", value);
    assert core[0] == key[0] && core[|core| - 1] == value[|value| - 1];
    StripPadded(pad, core, pad);
    assert front[0] == key[0];
    ParseStripped(line, front, back);
    StripPadded([], key, pad);
    StripPadded(pad, value, []);
  }

  /** Whitespace added at the two ends of a stripped string is what stripping removes. */
  lemma StripPadded(left: string, s: string, right: string)
    requires s == [] || (!IsSpace(s[0]) && !IsSpace(s[|s| - 1]))
    requires forall k :: 0 <= k < |left| ==> IsSpace(left[k])
    requires forall k :: 0 <= k < |right| ==> IsSpace(right[k])
    ensures Strip(left + s + right) == s
  {
    var t := left + s + right;
    if s == [] {
      assert t == (left + right) + [];
      LeadingSpacePadded(left + right, []);
    } else {
      assert t == left + (s + right);
      LeadingSpacePadded(left, s + right);
      assert t[|left|..] == s + right;
      TrailingSpacePadded(s, right);
      assert (s + right)[..|s|] == s;
    }
  }

  lemma {:induction false} LeadingSpacePadded(left: string, u: string)
    requires forall k :: 0 <= k < |left| ==> IsSpace(left[k])
    requires u == [] || !IsSpace(u[0])
    ensures LeadingSpace(left + u) == |left|
  {
    if left == [] {
      assert left + u == u;
    } else {
      assert (left + u)[0] == left[0];
      assert (left + u)[1..] == left[1..] + u;
      LeadingSpacePadded(left[1..], u);
    }
  }

  lemma {:induction false} TrailingSpacePadded(u: string, right: string)
    requires forall k :: 0 <= k < |right| ==> IsSpace(right[k])
    requires u == [] || !IsSpace(u[|u| - 1])
    ensures TrailingStart(u + right) == |u|
  {
    if right == [] {
      assert u + right == u;
    } else {
      var t := u + right;
      assert t[|t| - 1] == right[|right| - 1];
      assert t[..|t| - 1] == u + right[..|right| - 1];
      TrailingSpacePadded(u, right[..|right| - 1]);
    }
  }

  /** `read_credentials_file` on the lines of the file: later assignments overwrite earlier ones. */
  function ReadAll(lines: seq<string>): (r: Result<OrdMap<string, string>>)
    ensures r.Ok? ==> r.value.Valid()
  {
    if lines == [] then Ok(Empty())
    else
      match ReadAll(lines[..|lines| - 1])
      case Err(e) => Err(e)
      case Ok(creds) => Step(creds, lines[|lines| - 1])
  }

  /** One line of the file applied to the credentials read so far. */
  function Step(creds: OrdMap<string, string>, line: string): (r: Result<OrdMap<string, string>>)
    requires creds.Valid()
    ensures r.Ok? ==> r.value.Valid()
  {
    match ParseLine(line)
    case Err(e) => Err(e)
    case Ok(None) => Ok(creds)
    case Ok(Some((key, value))) => Ok(creds.Put(key, value))
  }

  /** The loop of `read_credentials_file`, one line at a time. */
  method ReadCredentials(lines: seq<string>) returns (r: Result<OrdMap<string, string>>)
    ensures r == ReadAll(lines)
  {
    var creds: OrdMap<string, string> := Empty();
    var i := 0;
    while i < |lines|
      invariant 0 <= i <= |lines|
      invariant ReadAll(lines[..i]) == Ok(creds)
    {
      assert lines[..i + 1][..i] == lines[..i];
      var parsed := ParseLine(lines[i]);
      if parsed.Err? {
        assert ReadAll(lines[..i + 1]).Err?;
        ReadAllStops(lines, i + 1);
        return Err(parsed.error);
      }
      if parsed.value.Some? {
        var (key, value) := parsed.value.value;
        creds := creds.Put(key, value);
      }
      i := i + 1;
    }
    assert lines[..i] == lines;
    r := Ok(creds);
  }

  /** Once a prefix of the file fails, the whole file fails with the same error. */
  lemma {:induction false} ReadAllStops(lines: seq<string>, n: nat)
    requires n <= |lines| && ReadAll(lines[..n]).Err?
    ensures ReadAll(lines) == ReadAll(lines[..n])
    decreases |lines| - n
  {
    if n == |lines| {
      assert lines[..n] == lines;
    } else {
      assert lines[..n + 1][..n] == lines[..n];
      ReadAllStops(lines, n + 1);
    }
  }

  /** The value of the last line that assigns `key`, if any: the reference reading of the file. */
  function LastAssignment(lines: seq<string>, key: string): Option<string> {
    if lines == [] then None
    else
      var p := ParseLine(lines[|lines| - 1]);
      if p.Ok? && p.value.Some? && p.value.value.0 == key then Some(p.value.value.1)
      else LastAssignment(lines[..|lines| - 1], key)
  }

  /** Each key read holds the value of the last line assigning it, and only assigned keys are read. */
  lemma {:induction false} ReadAllLookup(lines: seq<string>, key: string)
    requires ReadAll(lines).Ok?
    ensures ReadAll(lines).value.Get(key) == LastAssignment(lines, key)
    ensures key in ReadAll(lines).value.keys <==> LastAssignment(lines, key).Some?
  {
    if lines != [] {
      var init := lines[..|lines| - 1];
      ReadAllLookup(init, key);
    }
  }

  /** A line with no `=` makes the whole file fail. */
  lemma {:induction false} FailingLineFails(lines: seq<string>, i: nat)
    requires i < |lines| && ParseLine(lines[i]).Err?
    ensures ReadAll(lines).Err?
  {
    var init := lines[..|lines| - 1];
    if i < |init| {
      assert init[i] == lines[i];
      FailingLineFails(init, i);
      ReadAllErrInit(lines);
    } else {
      ReadAllErrLast(lines, i);
    }
  }

  /** Reading fails once the lines before the last fail. */
  lemma ReadAllErrInit(lines: seq<string>)
    requires lines != [] && ReadAll(lines[..|lines| - 1]).Err?
    ensures ReadAll(lines).Err?
  {
  }

  /** Reading fails when the last line fails. */
  lemma ReadAllErrLast(lines: seq<string>, i: nat)
    requires i + 1 == |lines| && ParseLine(lines[i]).Err?
    ensures ReadAll(lines).Err?
  {
  }

  /** A file that fails holds a line with no `=`, and fails with the unpacking error. */
  lemma {:induction false} FailureHasLine(lines: seq<string>)
    requires ReadAll(lines).Err?
    ensures exists i :: 0 <= i < |lines| && ParseLine(lines[i]).Err?
    ensures ReadAll(lines).error == ValueError(UnpackMessage)
  {
    var init := lines[..|lines| - 1];
    if ReadAll(init).Err? {
      FailureHasLine(init);
      var i :| 0 <= i < |init| && ParseLine(init[i]).Err?;
      assert lines[i] == init[i];
    } else {
      assert ParseLine(lines[|lines| - 1]).Err?;
    }
  }

  /** A file fails to read exactly when one of its lines is an unsplittable assignment. */
  lemma ReadAllFails(lines: seq<string>)
    ensures ReadAll(lines).Err? <==> exists i :: 0 <= i < |lines| && ParseLine(lines[i]).Err?
    ensures ReadAll(lines).Err? ==> ReadAll(lines).error == ValueError(UnpackMessage)
  {
    if ReadAll(lines).Err? {
      FailureHasLine(lines);
    }
    if exists i :: 0 <= i < |lines| && ParseLine(lines[i]).Err? {
      var i :| 0 <= i < |lines| && ParseLine(lines[i]).Err?;
      FailingLineFails(lines, i);
    }
  }

  /** A blank or comment line, wherever it stands, changes nothing. */
  lemma {:induction false} IgnoredLineChangesNothing(before: seq<string>, line: string, after: seq<string>)
    requires Ignored(Strip(line))
    ensures ReadAll(before + [line] + after) == ReadAll(before + after)
  {
    if after == [] {
      Partition.DropOnly(before, line);
      ReadAllIgnoredStep(before + [line] + after);
    } else {
      var init := after[..|after| - 1];
      IgnoredLineChangesNothing(before, line, init);
      Partition.SnocRegroup(before + [line], after);
      Partition.SnocRegroup(before, after);
      ReadAllSnocSame(before + [line] + init, before + init, after[|after| - 1]);
    }
  }

  /** Files that read the same go on reading the same after one more line. */
  lemma ReadAllSnocSame(a: seq<string>, b: seq<string>, x: string)
    requires ReadAll(a) == ReadAll(b)
    ensures ReadAll(a + [x]) == ReadAll(b + [x])
  {
    Partition.SnocParts(a, x);
    Partition.SnocParts(b, x);
  }

  /** A final blank or comment line changes nothing. */
  lemma ReadAllIgnoredStep(lines: seq<string>)
    requires lines != [] && Ignored(Strip(lines[|lines| - 1]))
    ensures ReadAll(lines) == ReadAll(lines[..|lines| - 1])
  {
  }

  /** One more well-formed assignment line sets its key, new keys going to the end. */
  lemma AssignmentPuts(lines: seq<string>, key: string, value: string)
    requires ReadAll(lines).Ok? && GoodKey(key) && GoodValue(value)
    ensures ReadAll(lines + [FormatLine(key, value)]) == Ok(ReadAll(lines).value.Put(key, value))
  {
    var all := lines + [FormatLine(key, value)];
    assert all[..|all| - 1] == lines;
    ParseFormatted(key, value);
  }

  /** A file holding one assignment line per key, in order. */
  function AssignmentLines(ks: seq<string>, vs: seq<string>): (lines: seq<string>)
    requires |ks| == |vs|
    ensures |lines| == |ks|
    ensures forall i :: 0 <= i < |ks| ==> lines[i] == FormatLine(ks[i], vs[i])
  {
    seq(|ks|, i requires 0 <= i < |ks| => FormatLine(ks[i], vs[i]))
  }

  /**
   * A file of well-formed assignments to distinct keys, such as the project's
   * test file (`host`, `user`, `password`, `database`), reads as exactly those
   * keys in file order, each holding the value assigned to it.
   */
  lemma {:induction false} DistinctAssignments(ks: seq<string>, vs: seq<string>)
    requires |ks| == |vs|
    requires forall i :: 0 <= i < |ks| ==> GoodKey(ks[i]) && GoodValue(vs[i])
    requires forall i, j :: 0 <= i < j < |ks| ==> ks[i] != ks[j]
    ensures ReadAll(AssignmentLines(ks, vs)).Ok?
    ensures ReadAll(AssignmentLines(ks, vs)).value.keys == ks
    ensures forall i :: 0 <= i < |ks| ==> ReadAll(AssignmentLines(ks, vs)).value.Get(ks[i]) == Some(vs[i])
  {
    if ks != [] {
      var n := |ks| - 1;
      DistinctAssignments(ks[..n], vs[..n]);
      AssignmentLinesSnoc(ks, vs);
      assert ks[n] !in ks[..n] by {
        assert forall i :: 0 <= i < n ==> ks[..n][i] == ks[i];
      }
      FreshAssignment(AssignmentLines(ks[..n], vs[..n]), ks[..n], vs[..n], ks[n], vs[n]);
      Partition.SplitLast(ks);
      Partition.SplitLast(vs);
    }
  }

  lemma AssignmentLinesSnoc(ks: seq<string>, vs: seq<string>)
    requires |ks| == |vs| && ks != []
    ensures AssignmentLines(ks, vs)
            == AssignmentLines(ks[..|ks| - 1], vs[..|ks| - 1]) + [FormatLine(ks[|ks| - 1], vs[|ks| - 1])]
  {
  }

  /** An assignment to a new key, after lines that read as the earlier keys, extends the result by that key. */
  lemma FreshAssignment(prev: seq<string>, ks: seq<string>, vs: seq<string>, k: string, v: string)
    requires |ks| == |vs| && GoodKey(k) && GoodValue(v) && k !in ks
    requires ReadAll(prev).Ok? && ReadAll(prev).value.keys == ks
    requires forall i :: 0 <= i < |ks| ==> ReadAll(prev).value.Get(ks[i]) == Some(vs[i])
    ensures ReadAll(prev + [FormatLine(k, v)]).Ok?
    ensures ReadAll(prev + [FormatLine(k, v)]).value.keys == ks + [k]
    ensures forall i :: 0 <= i < |ks| + 1 ==> ReadAll(prev + [FormatLine(k, v)]).value.Get((ks + [k])[i]) == Some((vs + [v])[i])
  {
    AssignmentPuts(prev, k, v);
    PutFresh(ReadAll(prev).value, ks, vs, k, v);
  }

  /** Putting a key the map does not hold yet appends it and keeps every earlier entry. */
  lemma PutFresh(before: OrdMap<string, string>, ks: seq<string>, vs: seq<string>, k: string, v: string)
    requires |ks| == |vs| && before.Valid() && before.keys == ks && k !in ks
    requires forall i :: 0 <= i < |ks| ==> before.Get(ks[i]) == Some(vs[i])
    ensures before.Put(k, v).keys == ks + [k]
    ensures forall i :: 0 <= i < |ks| + 1 ==> before.Put(k, v).Get((ks + [k])[i]) == Some((vs + [v])[i])
  {
    forall i | 0 <= i < |ks| + 1 ensures before.Put(k, v).Get((ks + [k])[i]) == Some((vs + [v])[i]) {
      if i < |ks| {
        assert (ks + [k])[i] == ks[i] && (vs + [v])[i] == vs[i];
      }
    }
  }

  /** The credentials file of the project's test reads as its four keys, in file order. */
  lemma TestFileReads()
    ensures var r := ReadAll(AssignmentLines(["host", "user", "password", "database"],
                                             ["dbserver.example.com", "myuser", "fakepassword", "testdb"]));
            && r.Ok?
            && r.value.keys == ["host", "user", "password", "database"]
            && r.value.Get("host") == Some("dbserver.example.com")
            && r.value.Get("user") == Some("myuser")
            && r.value.Get("password") == Some("fakepassword")
            && r.value.Get("database") == Some("testdb")
  {
    var ks := ["host", "user", "password", "database"];
    var vs := ["dbserver.example.com", "myuser", "fakepassword", "testdb"];
    DistinctAssignments(ks, vs);
    assert ks[0] == "host" && vs[0] == "dbserver.example.com";
    assert ks[1] == "user" && vs[1] == "myuser";
    assert ks[2] == "password" && vs[2] == "fakepassword";
    assert ks[3] == "database" && vs[3] == "testdb";
  }
}
