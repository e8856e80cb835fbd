/** The manifest loader `load_ljs`: every line of `list.txt` is stripped of
    surrounding whitespace and split on `|`; a line that gives exactly two
    fields becomes a (file name, transcript) record, any other line is skipped
    with a printed notice. */
module Manifest {

  /** The characters Python's `str.isspace` accepts, which are the ones
      `str.strip()` removes when it is called without an argument. */
  predicate IsSpace(c: char)
    ensures c in " \t\n\r" || c == '\U{0B}' || c == '\U{0C}' ==> IsSpace(c)
    ensures IsSpace(c) ==> c != '|' && !('0' <= c <= '9') && !('a' <= c <= 'z') && !('A' <= c <= 'Z')
  {
    ('\t' <= c <= '\r') || ('\U{1C}' <= c <= '\U{1F}') || c == ' '
    || c == '\U{85}' || c == '\U{A0}' || c == '\U{1680}'
    || ('\U{2000}' <= c <= '\U{200A}') || c == '\U{2028}' || c == '\U{2029}'
    || c == '\U{202F}' || c == '\U{205F}' || c == '\U{3000}'
  }

  predicate AllSpace(s: string) {
    forall k :: 0 <= k < |s| ==> IsSpace(s[k])
  }

  /** `s.lstrip()` */
  function StripLeft(s: string): (r: string)
    ensures |r| <= |s|
  {
    if s != [] && IsSpace(s[0]) then StripLeft(s[1..]) else s
  }

  /** `s.rstrip()` */
  function StripRight(s: string): (r: string)
    ensures |r| <= |s|
  {
    if s != [] && IsSpace(s[|s| - 1]) then StripRight(s[..|s| - 1]) else s
  }

  /** `s.strip()` */
  function Strip(s: string): (r: string)
    ensures |r| <= |s|
  {
    StripRight(StripLeft(s))
  }

  /** `lstrip` keeps the longest suffix that does not start with whitespace:
      what it drops is whitespace, and what it keeps starts with none. */
  lemma {:induction false} StripLeftSpec(s: string)
    ensures StripLeft(s) == s[|s| - |StripLeft(s)|..]
    ensures AllSpace(s[..|s| - |StripLeft(s)|])
    ensures StripLeft(s) == [] || !IsSpace(StripLeft(s)[0])
  {
    if s != [] && IsSpace(s[0]) {
      StripLeftSpec(s[1..]);
      var k := |s| - |StripLeft(s)|;
      assert s[1..][..k - 1] == s[1..k];
      assert forall j :: 0 < j < k ==> s[j] == s[1..][..k - 1][j - 1];
    }
  }

  /** `rstrip` keeps the longest prefix that does not end with whitespace. */
  lemma {:induction false} StripRightSpec(s: string)
    ensures StripRight(s) == s[..|StripRight(s)|]
    ensures AllSpace(s[|StripRight(s)|..])
    ensures StripRight(s) == [] || !IsSpace(StripRight(s)[|StripRight(s)| - 1])
  {
    if s != [] && IsSpace(s[|s| - 1]) {
      var t := s[..|s| - 1];
      StripRightSpec(t);
      var k := |StripRight(s)|;
      assert forall j :: k <= j < |t| ==> s[j] == t[k..][j - k];
    }
  }

  /** `strip` leaves a string that neither starts nor ends with whitespace. */
  lemma StripSpec(s: string)
    ensures var r := Strip(s);
      r == [] || (!IsSpace(r[0]) && !IsSpace(r[|r| - 1]))
  {
    var l := StripLeft(s);
    StripLeftSpec(s);
    StripRightSpec(l);
  }

  lemma {:induction false} StripLeftSkips(pre: string, rest: string)
    requires AllSpace(pre)
    ensures StripLeft(pre + rest) == StripLeft(rest)
  {
    if pre != [] {
      assert (pre + rest)[0] == pre[0];
      assert (pre + rest)[1..] == pre[1..] + rest;
      StripLeftSkips(pre[1..], rest);
    } else {
      assert pre + rest == rest;
    }
  }

  lemma {:induction false} StripRightSkips(rest: string, post: string)
    requires AllSpace(post)
    ensures StripRight(rest + post) == StripRight(rest)
  {
    if post != [] {
      var s := rest + post;
      assert s[|s| - 1] == post[|post| - 1];
      assert s[..|s| - 1] == rest + post[..|post| - 1];
      StripRightSkips(rest, post[..|post| - 1]);
    } else {
      assert rest + post == rest;
    }
  }

  /** Stripping removes exactly a whitespace prefix and a whitespace suffix:
      the stripped form of `pre + core + post` is `core` whenever `pre` and
      `post` are whitespace and `core` neither starts nor ends with whitespace. */
  lemma StripPadded(pre: string, core: string, post: string)
    requires AllSpace(pre) && AllSpace(post)
    requires core == [] || (!IsSpace(core[0]) && !IsSpace(core[|core| - 1]))
    ensures Strip(pre + core + post) == core
  {
    assert pre + core + post == pre + (core + post);
    StripLeftSkips(pre, core + post);
    if core == [] {
      assert core + post == post + [];
      StripLeftSkips(post, []);
    } else {
      assert (core + post)[0] == core[0];
      StripRightSkips(core, post);
    }
  }

  /** Stripping an already stripped line changes nothing. */
  lemma StripIdempotent(s: string)
    ensures Strip(Strip(s)) == Strip(s)
  {
    var t := Strip(s);
    StripSpec(s);
    var e: string := "";
    assert AllSpace(e);
    assert e + t + e == t;
    StripPadded(e, t, e);
  }

  function CountChar(s: string, c: char): nat {
    if s == [] then 0 else (if s[0] == c then 1 else 0) + CountChar(s[1..], c)
  }

  /** `s.split(sep)` for a one-character separator: the pieces between the
      occurrences of `sep`; an empty string gives one empty piece. */
  function Split(s: string, sep: char): (r: seq<string>)
    ensures |r| >= 1
  {
    if s == [] then [""]
    else
      var rest := Split(s[1..], sep);
      if s[0] == sep then [""] + rest
      else [[s[0]] + rest[0]] + rest[1..]
  }

  /** `sep.join(fields)`: at least one separator between each two fields. */
  function Join(fields: seq<string>, sep: char): (r: string)
    ensures |fields| >= 1 ==> CountChar(r, sep) >= |fields| - 1
  {
    if |fields| == 0 then ""
    else if |fields| == 1 then fields[0]
    else
      var tail := Join(fields[1..], sep);
      CountCharAppend(fields[0], [sep], sep);
      CountCharAppend(fields[0] + [sep], tail, sep);
      fields[0] + [sep] + tail
  }

  lemma {:induction false} CountCharAppend(a: string, b: string, c: char)
    ensures CountChar(a + b, c) == CountChar(a, c) + CountChar(b, c)
  {
    if a == [] {
      assert a + b == b;
    } else {
      assert (a + b)[1..] == a[1..] + b;
      CountCharAppend(a[1..], b, c);
    }
  }

  /** Splitting gives one more piece than there are separators. */
  lemma {:induction false} SplitLength(s: string, sep: char)
    ensures |Split(s, sep)| == CountChar(s, sep) + 1
  {
    if s != [] {
      SplitLength(s[1..], sep);
    }
  }

  /** No piece of a split contains the separator. */
  lemma {:induction false} SplitPiecesFree(s: string, sep: char)
    ensures forall i :: 0 <= i < |Split(s, sep)| ==> sep !in Split(s, sep)[i]
  {
    if s != [] {
      SplitPiecesFree(s[1..], sep);
      var rest := Split(s[1..], sep);
      if s[0] != sep {
        assert sep !in rest[0];
        assert sep !in [s[0]] + rest[0];
      }
    }
  }

  /** Joining the pieces of a split with the separator gives the string back. */
  lemma {:induction false} JoinSplit(s: string, sep: char)
    ensures Join(Split(s, sep), sep) == s
  {
    if s != [] {
      JoinSplit(s[1..], sep);
      var rest := Split(s[1..], sep);
      if s[0] == sep {
        assert ([""] + rest)[1..] == rest;
        assert s == [sep] + s[1..];
      } else if |rest| == 1 {
        assert s == [s[0]] + s[1..];
      } else {
        var fs := [[s[0]] + rest[0]] + rest[1..];
        assert fs[1..] == rest[1..];
        assert s == [s[0]] + s[1..];
      }
    }
  }

  lemma {:induction false} SplitPrefix(a: string, t: string, sep: char)
    requires sep !in a
    ensures Split(a + t, sep) == [a + Split(t, sep)[0]] + Split(t, sep)[1..]
  {
    if a != [] {
      assert (a + t)[0] == a[0];
      assert (a + t)[1..] == a[1..] + t;
      SplitPrefix(a[1..], t, sep);
      assert [a[0]] + (a[1..] + Split(t, sep)[0]) == a + Split(t, sep)[0];
    } else {
      assert a + t == t;
      assert a + Split(t, sep)[0] == Split(t, sep)[0];
      assert Split(t, sep) == [Split(t, sep)[0]] + Split(t, sep)[1..];
    }
  }

  /** Splitting a join of separator-free pieces gives the pieces back. */
  lemma {:induction false} SplitJoin(fields: seq<string>, sep: char)
    requires |fields| >= 1
    requires forall i :: 0 <= i < |fields| ==> sep !in fields[i]
    ensures Split(Join(fields, sep), sep) == fields
  {
    if |fields| == 1 {
      SplitPrefix(fields[0], "", sep);
      assert fields[0] + "" == fields[0];
    } else {
      var tail := Join(fields[1..], sep);
      SplitJoin(fields[1..], sep);
      assert fields[0] + [sep] + tail == fields[0] + ([sep] + tail);
      SplitPrefix(fields[0], [sep] + tail, sep);
      assert ([sep] + tail)[1..] == tail;
      assert fields[0] + "" == fields[0];
      assert fields == [fields[0]] + fields[1..];
    }
  }

  datatype Option<T> = None | Some(value: T)

  /** One manifest entry: the list `parts` that `load_ljs` appends. */
  datatype Record = Record(fileName: string, transcript: string)

  /** What `load_ljs` does with one line: `Some` of the record it appends,
      or `None` where it prints its notice instead. */
  function ParseLine(line: string): (r: Option<Record>)
    ensures r.Some? ==> '|' !in r.value.fileName && '|' !in r.value.transcript
  {
    var parts := Split(Strip(line), '|');
    SplitPiecesFree(Strip(line), '|');
    if |parts| == 2 then Some(Record(parts[0], parts[1])) else None
  }

  /** A line is kept exactly when its stripped form holds one `|`. */
  lemma KeptIff(line: string)
    ensures ParseLine(line).Some? <==> CountChar(Strip(line), '|') == 1
  {
    SplitLength(Strip(line), '|');
  }

  /** A blank line, or one of whitespace only, is skipped. */
  lemma BlankSkipped(line: string)
    requires AllSpace(line)
    ensures ParseLine(line) == None
  {
    assert line + "" + "" == line;
    StripPadded(line, "", "");
    KeptIff(line);
  }

  /** A kept record joined with `|` is the stripped line, and neither of its
      fields holds a `|`. */
  lemma ParsedJoin(line: string, r: Record)
    requires ParseLine(line) == Some(r)
    ensures r.fileName + "|" + r.transcript == Strip(line)
    ensures '|' !in r.fileName && '|' !in r.transcript
  {
    var parts := Split(Strip(line), '|');
    JoinSplit(Strip(line), '|');
    SplitPiecesFree(Strip(line), '|');
    assert parts[1..] == [parts[1]];
    assert Join(parts, '|') == parts[0] + ['|'] + parts[1];
  }

  /** The other direction: a line written as `file|transcript`, with any
      whitespace around it (such as the newline `readlines` keeps), is read
      back as that record, provided neither field holds a bar, the file name
      does not start with whitespace and the transcript does not end with it
      (`strip()` would remove that whitespace as well). */
  lemma ParseWritten(pre: string, a: string, b: string, post: string)
    requires AllSpace(pre) && AllSpace(post)
    requires '|' !in a && '|' !in b
    requires a == [] || !IsSpace(a[0])
    requires b == [] || !IsSpace(b[|b| - 1])
    ensures ParseLine(pre + a + "|" + b + post) == Some(Record(a, b))
  {
    var core := a + "|" + b;
    assert pre + a + "|" + b + post == pre + core + post;
    assert core[|a|] == '|';
    assert a != [] ==> core[0] == a[0];
    assert b != [] ==> core[|core| - 1] == b[|b| - 1];
    StripPadded(pre, core, post);
    SplitTwo(a, b);
  }

  lemma SplitTwo(a: string, b: string)
    requires '|' !in a && '|' !in b
    ensures Split(a + "|" + b, '|') == [a, b]
  {
    assert Join([a, b], '|') == a + "|" + b;
    SplitJoin([a, b], '|');
  }

  /** The records kept from `lines`, in order. */
  function KeptRecords(lines: seq<string>): (r: seq<Record>)
    ensures |r| <= |lines|
  {
    if lines == [] then []
    else
      var init := KeptRecords(lines[..|lines| - 1]);
      match ParseLine(lines[|lines| - 1])
      case Some(r) => init + [r]
      case None => init
  }

  /** Keeping commutes with concatenating inputs: the records of `xs + ys` are
      those of `xs` followed by those of `ys`, so relative order is kept. */
  lemma {:induction false} KeptAppend(xs: seq<string>, ys: seq<string>)
    ensures KeptRecords(xs + ys) == KeptRecords(xs) + KeptRecords(ys)
  {
    if ys == [] {
      assert xs + ys == xs;
    } else {
      var init := ys[..|ys| - 1];
      assert (xs + ys)[..|xs + ys| - 1] == xs + init;
      assert (xs + ys)[|xs + ys| - 1] == ys[|ys| - 1];
      KeptAppend(xs, init);
    }
  }

  /** Each line contributes its own record, if any. */
  lemma KeptSingle(line: string)
    ensures KeptRecords([line]) == match ParseLine(line) case Some(r) => [r] case None => []
  {
    assert [line][..0] == [];
  }

  /** At most one record per line, and one per line exactly when no line is
      skipped. */
  lemma {:induction false} KeptCount(lines: seq<string>)
    ensures |KeptRecords(lines)| <= |lines|
    ensures |KeptRecords(lines)| == |lines| <==> forall i :: 0 <= i < |lines| ==> ParseLine(lines[i]).Some?
  {
    if lines != [] {
      var init := lines[..|lines| - 1];
      KeptCount(init);
      assert forall i :: 0 <= i < |init| ==> init[i] == lines[i];
    }
  }

  /** A record is in the result exactly when some line parses to it. */
  lemma KeptMembership(lines: seq<string>, r: Record)
    ensures r in KeptRecords(lines) <==> exists i :: 0 <= i < |lines| && ParseLine(lines[i]) == Some(r)
  {
    if r in KeptRecords(lines) {
      var i := KeptFrom(lines, r);
    }
    if exists i :: 0 <= i < |lines| && ParseLine(lines[i]) == Some(r) {
      var i :| 0 <= i < |lines| && ParseLine(lines[i]) == Some(r);
      KeptOf(lines, i);
    }
  }

  lemma {:induction false} KeptFrom(lines: seq<string>, r: Record) returns (i: nat)
    requires r in KeptRecords(lines)
    ensures i < |lines| && ParseLine(lines[i]) == Some(r)
  {
    var n := |lines| - 1;
    KeptSnoc(lines);
    if ParseLine(lines[n]) == Some(r) {
      i := n;
    } else {
      i := KeptFrom(lines[..n], r);
    }
  }

  lemma {:induction false} KeptOf(lines: seq<string>, i: nat)
    requires i < |lines| && ParseLine(lines[i]).Some?
    ensures ParseLine(lines[i]).value in KeptRecords(lines)
  {
    var n := |lines| - 1;
    KeptSnoc(lines);
    if i < n {
      assert lines[..n][i] == lines[i];
      KeptOf(lines[..n], i);
    }
  }

  lemma KeptSnoc(lines: seq<string>)
    requires lines != []
    ensures KeptRecords(lines) == KeptRecords(lines[..|lines| - 1])
      + match ParseLine(lines[|lines| - 1]) case Some(q) => [q] case None => []
  {
  }

  /** `load_ljs` over the lines of the file: the loop appends each record it
      can parse and prints a notice for each line it cannot; `skipped` counts
      those notices. */
  method LoadLjs(lines: seq<string>) returns (metadata: seq<Record>, skipped: nat)
    ensures metadata == KeptRecords(lines)
    ensures |metadata| + skipped == |lines|
  {
    metadata, skipped := [], 0;
    for i := 0 to |lines|
      invariant metadata == KeptRecords(lines[..i])
      invariant |metadata| + skipped == i
    {
      assert lines[..i + 1][..i] == lines[..i];
      var parts := Split(Strip(lines[i]), '|');
      if |parts| == 2 {
        metadata := metadata + [Record(parts[0], parts[1])];
      } else {
        skipped := skipped + 1;
      }
    }
    assert lines[..|lines|] == lines;
  }
}
