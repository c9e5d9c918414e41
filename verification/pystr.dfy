/**
 * The fragment of Python's `str` behaviour that the modelled programs rely on:
 * `find`, indexing, slicing with negative indices and clamping, `strip`,
 * `startswith`, `split(sep)`, `split()` and `upper()`.
 * Whitespace and case mapping are restricted to ASCII.
 */
module PyStr {
  import opened Common

  /** `str.isspace` on ASCII: tab, newline, vertical tab, form feed, carriage
      return, the four information separators 0x1c-0x1f and space. */
  predicate IsSpace(c: char) {
    c == ' ' || ('\t' <= c <= '\r') || ('\U{1C}' <= c <= '\U{1F}')
  }

  predicate NoSpace(s: string) {
    forall k :: 0 <= k < |s| ==> !IsSpace(s[k])
  }

  predicate AllSpace(s: string) {
    forall k :: 0 <= k < |s| ==> IsSpace(s[k])
  }

  /** `s.find(c)`: the index of the first occurrence of `c`, or -1. */
  function Find(s: string, c: char): (r: int)
    ensures -1 <= r < |s|
    ensures 0 <= r ==> s[r] == c
  {
    if |s| == 0 then -1
    else if s[0] == c then 0
    else
      var k := Find(s[1..], c);
      if k == -1 then -1 else k + 1
  }

  /** No occurrence of `c` comes before the one `find` reports, and none at all when it
      reports -1. */
  lemma {:induction false} FindSpec(s: string, c: char)
    ensures forall j :: 0 <= j < |s| && (Find(s, c) == -1 || j < Find(s, c)) ==> s[j] != c
    decreases |s|
  {
    if |s| > 0 && s[0] != c {
      FindSpec(s[1..], c);
      forall j | 1 <= j < |s| && (Find(s, c) == -1 || j < Find(s, c)) ensures s[j] != c {
        assert s[j] == s[1..][j - 1];
      }
    }
  }

  /** `find` reports the first occurrence. */
  lemma FindFirst(s: string, c: char, i: nat)
    requires i < |s| && s[i] == c && c !in s[..i]
    ensures Find(s, c) == i
  {
    FindSpec(s, c);
    forall j | 0 <= j < i ensures s[j] != c {
      assert s[j] == s[..i][j];
    }
  }

  /** How Python turns a slice bound into a position: a negative bound counts
      from the end, and the result is clamped to `0..n`. */
  function Clamp(i: int, n: nat): (r: nat)
    ensures r <= n
    ensures 0 <= i <= n ==> r == i
    ensures -(n as int) <= i < 0 ==> r == i + n
    ensures i < -(n as int) ==> r == 0
    ensures n < i ==> r == n
  {
    if i < 0 then (if i + n < 0 then 0 else i + n)
    else if i > n then n
    else i
  }

  /** `s[start:stop]`: empty whenever the clamped start is not below the clamped stop. */
  function Slice(s: string, start: int, stop: int): (r: string)
    ensures |r| <= |s|
    ensures Clamp(start, |s|) < Clamp(stop, |s|) ==> r == s[Clamp(start, |s|)..Clamp(stop, |s|)]
    ensures Clamp(stop, |s|) <= Clamp(start, |s|) ==> r == []
  {
    var lo, hi := Clamp(start, |s|), Clamp(stop, |s|);
    if lo < hi then s[lo..hi] else []
  }

  /** `s[start:]` */
  function SliceFrom(s: string, start: int): (r: string)
    ensures r == s[Clamp(start, |s|)..]
  {
    s[Clamp(start, |s|)..]
  }

  /** `s[k]`: `None` stands for the IndexError raised outside `-len(s)..len(s)-1`. */
  function Index(s: string, k: int): (r: Option<char>)
    ensures r.Some? <==> -|s| <= k < |s|
    ensures 0 <= k < |s| ==> r == Some(s[k])
    ensures -|s| <= k < 0 ==> r == Some(s[|s| + k])
  {
    if 0 <= k < |s| then Some(s[k])
    else if -|s| <= k < 0 then Some(s[k + |s|])
    else None
  }

  /** `s.startswith(p)` */
  predicate StartsWith(s: string, p: string) {
    |p| <= |s| && s[..|p|] == p
  }

  /** The number of whitespace characters `s` starts with. */
  function LeadingSpace(s: string): (n: nat)
    ensures n <= |s|
  {
    if |s| > 0 && IsSpace(s[0]) then 1 + LeadingSpace(s[1..]) else 0
  }

  /** The number of whitespace characters `s` ends with. */
  function TrailingSpace(s: string): (n: nat)
    ensures n <= |s|
  {
    if |s| > 0 && IsSpace(s[|s| - 1]) then 1 + TrailingSpace(s[..|s| - 1]) else 0
  }

  lemma {:induction false} LeadingSpaceSpec(s: string)
    ensures forall k :: 0 <= k < LeadingSpace(s) ==> IsSpace(s[k])
    ensures LeadingSpace(s) < |s| ==> !IsSpace(s[LeadingSpace(s)])
    decreases |s|
  {
    if |s| > 0 && IsSpace(s[0]) {
      LeadingSpaceSpec(s[1..]);
      forall k | 0 < k < LeadingSpace(s) ensures IsSpace(s[k]) {
        assert s[k] == s[1..][k - 1];
      }
    }
  }

  lemma {:induction false} TrailingSpaceSpec(s: string)
    ensures forall k :: |s| - TrailingSpace(s) <= k < |s| ==> IsSpace(s[k])
    ensures TrailingSpace(s) < |s| ==> !IsSpace(s[|s| - TrailingSpace(s) - 1])
    decreases |s|
  {
    if |s| > 0 && IsSpace(s[|s| - 1]) {
      TrailingSpaceSpec(s[..|s| - 1]);
    }
  }

  /** `s.lstrip()` */
  function StripLeft(s: string): (r: string)
  {
    s[LeadingSpace(s)..]
  }

  /** `s.rstrip()` */
  function StripRight(s: string): (r: string)
  {
    s[..|s| - TrailingSpace(s)]
  }

  /** `s.strip()`: whitespace removed at both ends. */
  function Strip(s: string): (r: string)
    ensures |r| <= |s|
  {
    StripRight(StripLeft(s))
  }

  /** What `strip` keeps is one contiguous piece `s[i..j]` of the input,
      and only whitespace lies outside it. */
  lemma StripSpec(s: string)
    ensures var i := LeadingSpace(s);
      var j := i + |Strip(s)|;
      && j <= |s| && Strip(s) == s[i..j]
      && (forall k :: 0 <= k < i ==> IsSpace(s[k]))
      && (forall k :: j <= k < |s| ==> IsSpace(s[k]))
  {
    LeadingSpaceSpec(s);
    StripSlice(s);
    StripTrailing(s);
  }

  lemma StripSlice(s: string)
    ensures LeadingSpace(s) + |Strip(s)| <= |s|
    ensures Strip(s) == s[LeadingSpace(s)..LeadingSpace(s) + |Strip(s)|]
  {
    SliceOfSuffix(s, LeadingSpace(s), |Strip(s)|);
  }

  lemma StripTrailing(s: string)
    ensures forall k :: LeadingSpace(s) + |Strip(s)| <= k < |s| ==> IsSpace(s[k])
  {
    var i := LeadingSpace(s);
    var l := s[i..];
    TrailingSpaceSpec(l);
    forall k | i + |Strip(s)| <= k < |s| ensures IsSpace(s[k]) {
      assert s[k] == l[k - i];
    }
  }

  /** What `strip` keeps neither starts nor ends with whitespace. */
  lemma StripEnds(s: string)
    ensures Strip(s) == [] || (!IsSpace(Strip(s)[0]) && !IsSpace(Strip(s)[|Strip(s)| - 1]))
  {
    var i := LeadingSpace(s);
    var l := s[i..];
    var r := Strip(s);
    LeadingSpaceSpec(s);
    TrailingSpaceSpec(l);
    if r != [] {
      assert r[0] == l[0] == s[i];
      assert r[|r| - 1] == l[|r| - 1];
    }
  }

  /** A string that neither starts nor ends with whitespace is its own strip. */
  lemma StripFixed(s: string)
    requires s == [] || (!IsSpace(s[0]) && !IsSpace(s[|s| - 1]))
    ensures Strip(s) == s
  {
  }

  /** Stripping twice is stripping once. */
  lemma StripIdempotent(s: string)
    ensures Strip(Strip(s)) == Strip(s)
  {
    StripEnds(s);
    StripFixed(Strip(s));
  }

  lemma SliceOfSuffix(s: string, i: nat, n: nat)
    requires i + n <= |s|
    ensures s[i..][..n] == s[i..i + n]
  {
  }

  /** Text placed after a non-space character survives a strip untouched on the left. */
  lemma StripKeepsLead(s: string, t: string)
    requires s != [] && !IsSpace(s[0])
    requires t == [] || !IsSpace(t[|t| - 1])
    requires s != [] && (t != [] || !IsSpace(s[|s| - 1]))
    ensures Strip(s + t) == s + t
  {
    var u := s + t;
    assert u[0] == s[0];
    assert u[|u| - 1] == if t == [] then s[|s| - 1] else t[|t| - 1];
    StripFixed(u);
  }

  /** Whitespace put in front adds to the leading whitespace. */
  lemma {:induction false} LeadingSpacePrefix(w: string, t: string)
    requires AllSpace(w)
    ensures LeadingSpace(w + t) == |w| + LeadingSpace(t)
    decreases |w|
  {
    if w != [] {
      assert (w + t)[1..] == w[1..] + t;
      LeadingSpacePrefix(w[1..], t);
    } else {
      assert w + t == t;
    }
  }

  /** Text after a non-space character does not change the leading whitespace. */
  lemma {:induction false} LeadingSpaceStops(t: string, u: string)
    requires LeadingSpace(t) < |t|
    ensures LeadingSpace(t + u) == LeadingSpace(t)
    decreases |t|
  {
    if IsSpace(t[0]) {
      assert (t + u)[1..] == t[1..] + u;
      LeadingSpaceStops(t[1..], u);
    }
  }

  /** Whitespace put at the end adds to the trailing whitespace. */
  lemma {:induction false} TrailingSpaceSuffix(t: string, w: string)
    requires AllSpace(w)
    ensures TrailingSpace(t + w) == |w| + TrailingSpace(t)
    decreases |w|
  {
    if w != [] {
      var n := |w| - 1;
      assert (t + w)[..|t + w| - 1] == t + w[..n];
      TrailingSpaceSuffix(t, w[..n]);
    } else {
      assert t + w == t;
    }
  }

  /** Text with whitespace around it strips to the text, when the text itself
      starts and ends with a non-space character. */
  lemma StripAround(w1: string, m: string, w2: string)
    requires AllSpace(w1) && AllSpace(w2)
    requires m != [] && !IsSpace(m[0]) && !IsSpace(m[|m| - 1])
    ensures Strip(w1 + m + w2) == m
  {
    assert w1 + m + w2 == w1 + (m + w2);
    LeadingSpacePrefix(w1, m + w2);
    assert LeadingSpace(m + w2) == 0;
    assert StripLeft(w1 + m + w2) == m + w2;
    TrailingSpaceSuffix(m, w2);
    assert TrailingSpace(m) == 0;
  }

  /** Whitespace at the end makes no difference to `strip`. */
  lemma StripSpaceSuffix(t: string, w: string)
    requires AllSpace(w)
    ensures Strip(t + w) == Strip(t)
  {
    LeadingSpaceSpec(t);
    if LeadingSpace(t) < |t| {
      LeadingSpaceStops(t, w);
      var l := StripLeft(t);
      assert StripLeft(t + w) == l + w;
      TrailingSpaceSuffix(l, w);
      assert (l + w)[..|l| - TrailingSpace(l)] == l[..|l| - TrailingSpace(l)];
    } else {
      assert AllSpace(t);
      LeadingSpacePrefix(t, w);
      assert w == w + [];
      LeadingSpacePrefix(w, []);
    }
  }

  /** `sep.join(fields)` */
  function Join(fields: seq<string>, sep: char): (r: string)
    decreases |fields|
  {
    if |fields| == 0 then []
    else if |fields| == 1 then fields[0]
    else fields[0] + [sep] + Join(fields[1..], sep)
  }

  /** `s.split(sep)` for a one-character separator: always at least one field,
      and no field contains the separator. */
  function Split(s: string, sep: char): (r: seq<string>)
    ensures |r| >= 1
    ensures forall k :: 0 <= k < |r| ==> sep !in r[k]
    decreases |s|
  {
    var i := Find(s, sep);
    FindSpec(s, sep);
    if i == -1 then [s] else [s[..i]] + Split(s[i + 1..], sep)
  }

  /** Joining the fields of a split with the same separator gives back the input. */
  lemma {:induction false} JoinSplit(s: string, sep: char)
    ensures Join(Split(s, sep), sep) == s
    decreases |s|
  {
    var i := Find(s, sep);
    if i != -1 {
      var tail := s[i + 1..];
      var rest := Split(tail, sep);
      assert Split(s, sep) == [s[..i]] + rest;
      JoinSplit(tail, sep);
      JoinCons(s[..i], rest, sep);
      SplitAt(s, i);
    }
  }

  lemma SplitAt(s: string, i: nat)
    requires i < |s|
    ensures s == s[..i] + [s[i]] + s[i + 1..]
  {
  }

  lemma JoinCons(f: string, rest: seq<string>, sep: char)
    requires |rest| >= 1
    ensures Join([f] + rest, sep) == f + [sep] + Join(rest, sep)
  {
    assert ([f] + rest)[1..] == rest;
  }

  /** Splitting a join of separator-free fields gives back the fields. */
  lemma {:induction false} SplitJoin(fields: seq<string>, sep: char)
    requires |fields| >= 1
    requires forall k :: 0 <= k < |fields| ==> sep !in fields[k]
    ensures Split(Join(fields, sep), sep) == fields
    decreases |fields|
  {
    var f := fields[0];
    if |fields| == 1 {
      FindAbsent(f, sep);
    } else {
      var tail := fields[1..];
      var j := Join(tail, sep);
      var s := f + [sep] + j;
      assert Join(fields, sep) == s;
      FindAfter(f, j, sep);
      ConcatParts(f, sep, j);
      assert Split(s, sep) == [f] + Split(j, sep);
      assert forall k :: 0 <= k < |tail| ==> sep !in tail[k] by {
        forall k | 0 <= k < |tail| ensures sep !in tail[k] {
          assert tail[k] == fields[k + 1];
        }
      }
      SplitJoin(tail, sep);
      assert fields == [f] + tail;
    }
  }

  /** Two separator-free fields joined by the separator split back into the two. */
  lemma SplitTwo(a: string, b: string, sep: char)
    requires sep !in a && sep !in b
    ensures Split(a + [sep] + b, sep) == [a, b]
  {
    assert [a, b][1..] == [b];
    assert Join([a, b], sep) == a + [sep] + b;
    SplitJoin([a, b], sep);
  }

  lemma Join3(a: string, b: string, c: string, sep: char)
    ensures Join([a, b, c], sep) == a + [sep] + b + [sep] + c
  {
    JoinCons(a, [b, c], sep);
    assert [a] + [b, c] == [a, b, c];
    JoinCons(b, [c], sep);
    assert [b] + [c] == [b, c];
  }

  /** Three separator-free fields joined by the separator split back into the three. */
  lemma SplitThree(a: string, b: string, c: string, sep: char)
    requires sep !in a && sep !in b && sep !in c
    ensures Split(a + [sep] + b + [sep] + c, sep) == [a, b, c]
  {
    Join3(a, b, c, sep);
    SplitJoin([a, b, c], sep);
  }

  lemma FindAbsent(s: string, c: char)
    requires c !in s
    ensures Find(s, c) == -1
  {
    assert forall j :: 0 <= j < |s| ==> s[j] != c;
  }

  lemma ConcatParts(f: string, c: char, j: string)
    ensures (f + [c] + j)[..|f|] == f && (f + [c] + j)[|f| + 1..] == j
  {
  }

  /** The first separator of `f + [sep] + t` is the one after `f` when `f` has none. */
  lemma FindAfter(f: string, t: string, sep: char)
    requires sep !in f
    ensures Find(f + [sep] + t, sep) == |f|
  {
    var s := f + [sep] + t;
    assert s[..|f|] == f;
    FindFirst(s, sep, |f|);
  }

  /** The longest prefix of `s` without whitespace. */
  function TakeWord(s: string): (w: string)
    ensures |w| <= |s| && w == s[..|w|] && NoSpace(w)
    ensures |w| < |s| ==> IsSpace(s[|w|])
  {
    if |s| == 0 || IsSpace(s[0]) then [] else [s[0]] + TakeWord(s[1..])
  }

  /** A list of non-empty words, none holding whitespace. */
  predicate WordList(ws: seq<string>) {
    forall k :: 0 <= k < |ws| ==> ws[k] != [] && NoSpace(ws[k])
  }

  /** `s.split()`: the maximal runs of non-whitespace, in order. */
  function SplitWs(s: string): (r: seq<string>)
    ensures WordList(r)
    decreases |s|
  {
    if s == [] then []
    else if IsSpace(s[0]) then SplitWs(s[1..])
    else
      var w := TakeWord(s);
      var rest := SplitWs(s[|w|..]);
      assert WordList([w] + rest) by {
        forall k | 0 <= k < |rest| + 1 ensures ([w] + rest)[k] != [] && NoSpace(([w] + rest)[k]) {
          if k > 0 { assert ([w] + rest)[k] == rest[k - 1]; }
        }
      }
      [w] + rest
  }

  /** All the characters of `s` that are not whitespace, in order. */
  function Unspaced(s: string): (r: string)
    ensures NoSpace(r) && |r| <= |s|
  {
    if |s| == 0 then []
    else if IsSpace(s[0]) then Unspaced(s[1..])
    else [s[0]] + Unspaced(s[1..])
  }

  function Concat(ws: seq<string>): string {
    if |ws| == 0 then [] else ws[0] + Concat(ws[1..])
  }

  lemma {:induction false} UnspacedAppend(a: string, b: string)
    ensures Unspaced(a + b) == Unspaced(a) + Unspaced(b)
    decreases |a|
  {
    if |a| > 0 {
      assert (a + b)[1..] == a[1..] + b;
      UnspacedAppend(a[1..], b);
    } else {
      assert a + b == b;
    }
  }

  lemma {:induction false} UnspacedNoSpace(s: string)
    requires NoSpace(s)
    ensures Unspaced(s) == s
    decreases |s|
  {
    if |s| > 0 {
      UnspacedNoSpace(s[1..]);
    }
  }

  lemma {:induction false} UnspacedAllSpace(s: string)
    requires AllSpace(s)
    ensures Unspaced(s) == []
    decreases |s|
  {
    if |s| > 0 {
      UnspacedAllSpace(s[1..]);
    }
  }

  lemma UnspacedWord(t: string)
    ensures Unspaced(t) == TakeWord(t) + Unspaced(t[|TakeWord(t)|..])
  {
    var w := TakeWord(t);
    assert t == w + t[|w|..];
    UnspacedAppend(w, t[|w|..]);
    UnspacedNoSpace(w);
  }

  lemma ConcatCons(w: string, ws: seq<string>)
    ensures Concat([w] + ws) == w + Concat(ws)
  {
    assert ([w] + ws)[1..] == ws;
  }

  /** The words of `split()` put end to end are exactly the non-whitespace characters:
      nothing is lost, reordered or invented. */
  lemma {:induction false} SplitWsUnspaced(s: string)
    ensures Concat(SplitWs(s)) == Unspaced(s)
    decreases |s|
  {
    if s != [] {
      if IsSpace(s[0]) {
        SplitWsUnspaced(s[1..]);
      } else {
        var w := TakeWord(s);
        var tail := s[|w|..];
        assert SplitWs(s) == [w] + SplitWs(tail);
        ConcatCons(w, SplitWs(tail));
        SplitWsUnspaced(tail);
        UnspacedWord(s);
      }
    }
  }

  /** Splitting words joined by single spaces gives back the words. */
  lemma {:induction false} SplitWsJoin(ws: seq<string>)
    requires WordList(ws)
    ensures SplitWs(Join(ws, ' ')) == ws
    decreases |ws|
  {
    if |ws| == 1 {
      SplitWsWord(ws[0], []);
      assert ws[0] + [] == ws[0];
    } else if |ws| > 1 {
      var w, tail := ws[0], ws[1..];
      var rest := Join(tail, ' ');
      assert WordList(tail) by {
        forall k | 0 <= k < |tail| ensures tail[k] != [] && NoSpace(tail[k]) {
          assert tail[k] == ws[k + 1];
        }
      }
      assert w != [] && NoSpace(w);
      assert Join(ws, ' ') == w + ([' '] + rest);
      SplitWsWord(w, [' '] + rest);
      assert SplitWs([' '] + rest) == SplitWs(rest);
      SplitWsJoin(tail);
      assert ws == [w] + tail;
    }
  }

  /** A word followed by whitespace or by nothing is the first word of the split. */
  lemma SplitWsWord(w: string, t: string)
    requires w != [] && NoSpace(w)
    requires t == [] || IsSpace(t[0])
    ensures SplitWs(w + t) == [w] + SplitWs(t)
  {
    var s := w + t;
    assert s[0] == w[0];
    TakeWordAll(w, t);
    assert s[|w|..] == t;
  }

  lemma {:induction false} TakeWordAll(w: string, t: string)
    requires NoSpace(w)
    requires t == [] || IsSpace(t[0])
    ensures TakeWord(w + t) == w
    decreases |w|
  {
    if |w| > 0 {
      TailOfConcat(w, t);
      TakeWordAll(w[1..], t);
      ConsHeadTail(w);
    } else {
      assert w + t == t;
    }
  }

  lemma TailOfConcat(a: string, b: string)
    requires |a| > 0
    ensures (a + b)[0] == a[0] && (a + b)[1..] == a[1..] + b
  {
  }

  lemma ConsHeadTail(a: string)
    requires |a| > 0
    ensures a == [a[0]] + a[1..]
  {
  }

  /** ASCII `str.upper()` of one character. */
  function UpperChar(c: char): (r: char)
    ensures 'a' <= c <= 'z' ==> 'A' <= r <= 'Z' && r as int == c as int - 32
    ensures !('a' <= c <= 'z') ==> r == c
  {
    if 'a' <= c <= 'z' then (c as int - 32) as char else c
  }

  /** ASCII `str.upper()`: same length, each character mapped on its own. */
  function Upper(s: string): (r: string)
    ensures |r| == |s|
    ensures forall k :: 0 <= k < |s| ==> r[k] == UpperChar(s[k])
  {
    seq(|s|, k requires 0 <= k < |s| => UpperChar(s[k]))
  }
}
