/** Composite legend keys: chart series are coloured by the string
    concatenation of several fields with `" | "` between them. */
module Legends {

  const Separator: string := " | "

  /** `parts[0] + " | " + parts[1] + ...`; the empty list joins to "". */
  function JoinFields(parts: seq<string>): (s: string)
    ensures |parts| == 1 ==> s == parts[0]
    ensures parts != [] ==> |parts[0]| <= |s| && s[..|parts[0]|] == parts[0]
    ensures BarFree(parts) ==> ('|' in s <==> |parts| >= 2)
  {
    if parts == [] then ""
    else if |parts| == 1 then parts[0]
    else
      var rest := JoinFields(parts[1..]);
      var s := parts[0] + Separator + rest;
      assert s[|parts[0]| + 1] == '|';
      assert BarFree(parts) ==> '|' !in parts[0] && BarFree(parts[1..]);
      s
  }

  lemma JoinPair(a: string, b: string)
    ensures JoinFields([a, b]) == a + " | " + b
  {
  }

  lemma JoinTriple(a: string, b: string, c: string)
    ensures JoinFields([a, b, c]) == a + " | " + b + " | " + c
  {
    assert [a, b, c][1..] == [b, c];
    JoinPair(b, c);
  }

  /** Position of the first '|' in `s`, or `|s|` when there is none. */
  function BarIndex(s: string): (i: nat)
    ensures i <= |s|
    ensures forall k :: 0 <= k < i ==> s[k] != '|'
    ensures i < |s| ==> s[i] == '|'
  {
    if s == [] then 0 else if s[0] == '|' then 0 else 1 + BarIndex(s[1..])
  }

  /** Cuts a legend key back into its fields at each `" | "`. */
  function SplitFields(s: string): (parts: seq<string>)
    ensures parts != []
    decreases |s|
  {
    var i := BarIndex(s);
    if 1 <= i && i + 1 < |s| && s[i - 1] == ' ' && s[i + 1] == ' ' then
      [s[..i - 1]] + SplitFields(s[i + 2..])
    else
      [s]
  }

  predicate BarFree(parts: seq<string>) {
    forall j :: 0 <= j < |parts| ==> '|' !in parts[j]
  }

  lemma {:induction false} BarIndexAfter(x: string, y: string)
    requires '|' !in x
    ensures BarIndex(x + y) == |x| + BarIndex(y)
    decreases |x|
  {
    if x != [] {
      assert (x + y)[0] == x[0];
      assert (x + y)[1..] == x[1..] + y;
      BarIndexAfter(x[1..], y);
    } else {
      assert x + y == y;
    }
  }

  /** A string whose `i`-th character is a '|' between two spaces is the
      text before, the separator, and the text after. */
  lemma CutAtSeparator(s: string, i: int)
    requires 1 <= i && i + 1 < |s| && s[i - 1] == ' ' && s[i] == '|' && s[i + 1] == ' '
    ensures s == s[..i - 1] + Separator + s[i + 2..]
  {
    var t := s[..i - 1] + Separator + s[i + 2..];
    assert |t| == |s|;
    forall k | 0 <= k < |s|
      ensures t[k] == s[k]
    {
      if k < i - 1 {
      } else if k < i + 2 {
        assert t[k] == Separator[k - (i - 1)];
      } else {
        assert t[k] == s[i + 2..][k - (i + 2)];
      }
    }
  }

  /** Joining every string back from its split gives the string itself. */
  lemma {:induction false} JoinSplit(s: string)
    ensures JoinFields(SplitFields(s)) == s
    decreases |s|
  {
    var i := BarIndex(s);
    if 1 <= i && i + 1 < |s| && s[i - 1] == ' ' && s[i + 1] == ' ' {
      var head := s[..i - 1];
      var rest := s[i + 2..];
      assert SplitFields(s) == [head] + SplitFields(rest);
      JoinSplit(rest);
      JoinFirstField(head, SplitFields(rest));
      CutAtSeparator(s, i);
    } else {
      assert SplitFields(s) == [s];
    }
  }

  lemma JoinFirstField(head: string, tail: seq<string>)
    requires tail != []
    ensures JoinFields([head] + tail) == head + Separator + JoinFields(tail)
  {
    assert ([head] + tail)[1..] == tail;
  }

  /** Splitting a key whose first field has no '|' cuts off that field. */
  lemma SplitFirstField(head: string, tail: string)
    requires '|' !in head
    ensures SplitFields(head + Separator + tail) == [head] + SplitFields(tail)
  {
    var s := head + Separator + tail;
    assert s == head + (Separator + tail);
    BarIndexAfter(head, Separator + tail);
    var i := |head| + 1;
    assert BarIndex(s) == i;
    assert s[i - 1] == ' ' && s[i + 1] == ' ';
    assert s[..i - 1] == head;
    assert s[i + 2..] == tail;
  }

  /** A legend key built from fields that contain no '|' splits back into
      exactly those fields. */
  lemma {:induction false} SplitJoin(parts: seq<string>)
    requires parts != []
    requires BarFree(parts)
    ensures SplitFields(JoinFields(parts)) == parts
    decreases |parts|
  {
    if |parts| == 1 {
      assert BarIndex(parts[0]) == |parts[0]|;
    } else {
      SplitFirstField(parts[0], JoinFields(parts[1..]));
      SplitJoin(parts[1..]);
      assert parts == [parts[0]] + parts[1..];
    }
  }

  /** Different bar-free field lists never share a legend key. */
  lemma JoinInjective(p: seq<string>, q: seq<string>)
    requires p != [] && q != []
    requires BarFree(p) && BarFree(q)
    requires JoinFields(p) == JoinFields(q)
    ensures p == q
  {
    SplitJoin(p);
    SplitJoin(q);
  }
}
