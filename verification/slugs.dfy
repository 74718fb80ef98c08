/** Slugs are `.`-separated paths ("Feature.Child.Grandchild"). This module
    models PHP's `explode('.', $slug)`, the unlimited and the two-part form,
    and the re-joining of segments that the prefix walk performs. */
module Slugs {

  const Delimiter: char := '.'

  /** `explode('.', s)`: every delimiter splits, empty segments included;
      the empty string gives one empty segment. */
  function Split(s: string): (r: seq<string>)
    ensures |r| >= 1
    ensures forall i :: 0 <= i < |r| ==> Delimiter !in r[i]
    decreases |s|
  {
    if |s| == 0 then [""]
    else
      var rest := Split(s[1..]);
      if s[0] == Delimiter then [""] + rest
      else [[s[0]] + rest[0]] + rest[1..]
  }

  /** `implode('.', ss)`. */
  function Join(ss: seq<string>): string
    requires |ss| >= 1
  {
    if |ss| == 1 then ss[0] else ss[0] + [Delimiter] + Join(ss[1..])
  }

  /** The k-th accumulated prefix of a segment list: "A", "A.B", "A.B.C", ... */
  function Prefix(segs: seq<string>, k: nat): string
    requires 1 <= k <= |segs|
  {
    Join(segs[..k])
  }

  /** True when no segment contains the delimiter, which holds of every
      result of Split. */
  predicate DelimiterFree(ss: seq<string>)
  {
    forall i :: 0 <= i < |ss| ==> Delimiter !in ss[i]
  }

  /** One step of `explode`: a leading delimiter starts a new segment,
      any other character joins the first segment of the rest. */
  lemma SplitCons(c: char, t: string)
    ensures Split([c] + t) ==
      if c == Delimiter then [""] + Split(t) else [[c] + Split(t)[0]] + Split(t)[1..]
  {
    assert ([c] + t)[1..] == t;
  }

  /** Splitting and re-joining gives back the slug. */
  lemma {:induction false} JoinSplit(s: string)
    ensures Join(Split(s)) == s
    decreases |s|
  {
    if |s| > 0 {
      var t := s[1..];
      var rest := Split(t);
      assert s == [s[0]] + t;
      SplitCons(s[0], t);
      JoinSplit(t);
      var r := Split(s);
      if s[0] == Delimiter {
        assert r == [""] + rest;
        assert r[1..] == rest;
        assert Join(r) == "" + [Delimiter] + Join(rest);
      } else if |rest| == 1 {
        assert r == [[s[0]] + rest[0]];
      } else {
        assert r[0] == [s[0]] + rest[0] && r[1..] == rest[1..];
        assert Join(rest) == rest[0] + [Delimiter] + Join(rest[1..]);
        assert Join(r) == r[0] + [Delimiter] + Join(r[1..]);
      }
    }
  }

  /** A delimiter-free head merges into the first segment of what follows. */
  lemma {:induction false} SplitConcat(a: string, t: string)
    requires Delimiter !in a
    ensures Split(a + t) == [a + Split(t)[0]] + Split(t)[1..]
    decreases |a|
  {
    if |a| == 0 {
      assert a + t == t;
      assert a + Split(t)[0] == Split(t)[0];
      assert Split(t) == [Split(t)[0]] + Split(t)[1..];
    } else {
      assert (a + t)[1..] == a[1..] + t;
      SplitConcat(a[1..], t);
      assert [a[0]] + (a[1..] + Split(t)[0]) == a + Split(t)[0];
    }
  }

  /** Joining delimiter-free segments and splitting again gives back the
      segments, so the segments of a slug are uniquely determined. */
  lemma {:induction false} SplitJoin(ss: seq<string>)
    requires |ss| >= 1
    requires DelimiterFree(ss)
    ensures Split(Join(ss)) == ss
    decreases |ss|
  {
    if |ss| == 1 {
      SplitConcat(ss[0], "");
      assert ss[0] + "" == ss[0];
    } else {
      var tail := Join(ss[1..]);
      SplitJoin(ss[1..]);
      assert Split([Delimiter] + tail) == [""] + Split(tail) by {
        assert ([Delimiter] + tail)[1..] == tail;
      }
      assert ss[0] + [Delimiter] + tail == ss[0] + ([Delimiter] + tail);
      SplitConcat(ss[0], [Delimiter] + tail);
      assert ss[0] + "" == ss[0];
      assert ([""] + ss[1..])[1..] == ss[1..];
    }
  }

  /** Extending a segment list by one segment extends its join by ".x". */
  lemma {:induction false} JoinSnoc(ss: seq<string>, x: string)
    requires |ss| >= 1
    ensures Join(ss + [x]) == Join(ss) + [Delimiter] + x
    decreases |ss|
  {
    if |ss| == 1 {
      assert (ss + [x])[1..] == [x];
    } else {
      assert (ss + [x])[1..] == ss[1..] + [x];
      JoinSnoc(ss[1..], x);
    }
  }

  /** The next accumulated prefix is the previous one plus ".segment". */
  lemma PrefixStep(segs: seq<string>, k: nat)
    requires 1 <= k < |segs|
    ensures Prefix(segs, k + 1) == Prefix(segs, k) + [Delimiter] + segs[k]
  {
    assert segs[..k + 1] == segs[..k] + [segs[k]];
    JoinSnoc(segs[..k], segs[k]);
  }

  /** The step of `SplitCons` commutes with appending segments. */
  lemma ConsAppend(c: char, rest: seq<string>, more: seq<string>)
    requires |rest| >= 1
    ensures (if c == Delimiter then [""] + (rest + more) else [[c] + (rest + more)[0]] + (rest + more)[1..]) ==
      (if c == Delimiter then [""] + rest else [[c] + rest[0]] + rest[1..]) + more
  {
    if c != Delimiter {
      assert (rest + more)[1..] == rest[1..] + more;
    }
  }

  /** Splitting "a.b" gives the segments of a followed by those of b. */
  lemma {:induction false} SplitAppend(a: string, b: string)
    ensures Split(a + [Delimiter] + b) == Split(a) + Split(b)
    decreases |a|
  {
    if |a| == 0 {
      assert a + [Delimiter] + b == [Delimiter] + b;
      SplitCons(Delimiter, b);
    } else {
      var c, tail := a[0], a[1..];
      var t := tail + [Delimiter] + b;
      assert a + [Delimiter] + b == [c] + t;
      assert a == [c] + tail;
      SplitAppend(tail, b);
      SplitCons(c, t);
      SplitCons(c, tail);
      ConsAppend(c, Split(tail), Split(b));
    }
  }

  /** A join of two or more segments contains the delimiter. */
  lemma JoinOfManyHasDelimiter(ss: seq<string>)
    requires |ss| >= 2
    ensures Delimiter in Join(ss)
  {
    assert Join(ss)[|ss[0]|] == Delimiter;
  }

  /** `explode('.', s, 2)`: the part before the first delimiter and the rest,
      or None when the slug has no delimiter (PHP then yields one element). */
  function SplitFirst(s: string): (r: Halves)
    ensures r.Undivided? <==> Delimiter !in s
    ensures r.Divided? ==> r.head + [Delimiter] + r.tail == s && Delimiter !in r.head
    decreases |s|
  {
    if |s| == 0 then Undivided
    else if s[0] == Delimiter then Divided("", s[1..])
    else
      match SplitFirst(s[1..])
      case Undivided => Undivided
      case Divided(h, t) => Divided([s[0]] + h, t)
  }

  /** The two parts of a two-limit explode, if there are two. */
  datatype Halves = Undivided | Divided(head: string, tail: string)

  /** The two-part split agrees with the full split: its head is the first
      segment and its tail holds exactly the remaining segments. */
  lemma SplitFirstAgreesWithSplit(s: string)
    requires SplitFirst(s).Divided?
    ensures Split(s) == [SplitFirst(s).head] + Split(SplitFirst(s).tail)
  {
    var p := SplitFirst(s);
    assert p.head + ([Delimiter] + p.tail) == s;
    SplitConcat(p.head, [Delimiter] + p.tail);
    assert ([Delimiter] + p.tail)[1..] == p.tail;
    assert Split([Delimiter] + p.tail) == [""] + Split(p.tail);
    assert p.head + "" == p.head;
  }
}
