/**
 * The Iterator example: an iterable over the words of a text, its separate
 * cursor object, and a class that is both at once.  A `for` loop calls
 * `__iter__` once and then `__next__` until `StopIteration`.
 */
module Words {
  import opened Common
  import opened PyStr

  /** `[x.upper() for x in string.split()]` */
  function UpperWords(s: string): seq<string> {
    UpperAll(SplitWs(s))
  }

  /** Each word upper-cased. */
  function UpperAll(ws: seq<string>): (r: seq<string>)
    ensures |r| == |ws|
    ensures forall k :: 0 <= k < |ws| ==> r[k] == Upper(ws[k])
  {
    seq(|ws|, k requires 0 <= k < |ws| => Upper(ws[k]))
  }

  lemma UpperNoSpace(w: string)
    requires NoSpace(w)
    ensures NoSpace(Upper(w))
  {
  }

  lemma {:induction false} ConcatUpper(ws: seq<string>)
    ensures Concat(UpperAll(ws)) == Upper(Concat(ws))
    decreases |ws|
  {
    var us := UpperAll(ws);
    if ws != [] {
      var tail := ws[1..];
      ConcatUpper(tail);
      assert us == [Upper(ws[0])] + UpperAll(tail);
      ConcatCons(Upper(ws[0]), UpperAll(tail));
      ConcatCons(ws[0], tail);
      assert ws == [ws[0]] + tail;
      UpperAppend(ws[0], Concat(tail));
    }
  }

  lemma UpperAppend(a: string, b: string)
    ensures Upper(a + b) == Upper(a) + Upper(b)
  {
  }

  /**
   * The words are non-empty and free of whitespace, one per word of the text,
   * and end to end they are the text's non-whitespace characters, upper-cased
   * and in order: nothing is dropped but whitespace.
   */
  lemma UpperWordsSpec(s: string)
    ensures WordList(UpperWords(s))
    ensures |UpperWords(s)| == |SplitWs(s)|
    ensures Concat(UpperWords(s)) == Upper(Unspaced(s))
  {
    var ws := SplitWs(s);
    assert UpperWords(s) == UpperAll(ws);
    forall k | 0 <= k < |ws| ensures Upper(ws[k]) != [] && NoSpace(Upper(ws[k])) {
      UpperNoSpace(ws[k]);
    }
    ConcatUpper(ws);
    SplitWsUnspaced(s);
  }

  /** The cursor of `Iterable`: the word list and the position of the next word. */
  class Iterator {
    var words: seq<string>
    var index: nat

    /** `0 <= index <= len(words)` */
    predicate Valid()
      reads this
    {
      index <= |words|
    }

    /** The words a loop over the cursor has still to yield. */
    function Remaining(): seq<string>
      reads this
      requires Valid()
    {
      words[index..]
    }

    /** `Iterator(string)` */
    constructor (s: string)
      ensures Valid() && words == UpperWords(s) && index == 0
    {
      words := UpperWords(s);
      index := 0;
    }

    /** `__next__`: the next word, or `StopIteration` (here `None`) at the end, which
        leaves the index where it is. */
    method Next() returns (r: Option<string>)
      requires Valid()
      modifies this
      ensures Valid() && words == old(words)
      ensures old(index) == |words| ==> r.None? && index == old(index)
      ensures old(index) < |words| ==> r == Some(words[old(index)]) && index == old(index) + 1
      ensures r.Some? ==> old(Remaining()) == [r.value] + Remaining()
      ensures r.None? ==> Remaining() == []
    {
      if index == |words| {
        return None;
      }
      var word := words[index];
      index := index + 1;
      r := Some(word);
    }

    /** The body of a `for` loop: `__next__` until `StopIteration`. */
    method Drain() returns (ys: seq<string>)
      requires Valid()
      modifies this
      ensures Valid() && words == old(words) && index == |words|
      ensures ys == old(Remaining())
    {
      ys := [];
      while true
        invariant Valid() && words == old(words)
        invariant old(Remaining()) == ys + Remaining()
        decreases |words| - index
      {
        var r := Next();
        if r.None? {
          return;
        }
        ys := ys + [r.value];
      }
    }
  }

  /** `Iterable`: holds the text and hands out a new cursor on each `__iter__`. */
  class Iterable {
    const text: string

    constructor (s: string)
      ensures text == s
    {
      text := s;
    }

    /** `__iter__` */
    method Iter() returns (it: Iterator)
      ensures fresh(it) && it.Valid()
      ensures it.words == UpperWords(text) && it.index == 0
    {
      it := new Iterator(text);
    }

    /** `for thing in x`: the words a loop yields. */
    method ForLoop() returns (ys: seq<string>)
      ensures ys == UpperWords(text)
    {
      var it := Iter();
      ys := it.Drain();
    }

    /** Two loops over the same iterable yield the same words: each gets its own cursor. */
    method LoopTwice() returns (first: seq<string>, second: seq<string>)
      ensures first == second == UpperWords(text)
    {
      first := ForLoop();
      second := ForLoop();
    }
  }

  /** `IterableAndIterator`: the cursor is the object itself. */
  class IterableAndIterator {
    const text: string
    var words: seq<string>
    var index: nat

    /** The words are those of the text, and `0 <= index <= len(words)`. */
    predicate Valid()
      reads this
    {
      words == UpperWords(text) && index <= |words|
    }

    function Remaining(): seq<string>
      reads this
      requires Valid()
    {
      words[index..]
    }

    constructor (s: string)
      ensures text == s && Valid() && words == UpperWords(s) && index == 0
    {
      text := s;
      words := UpperWords(s);
      index := 0;
    }

    /** `__next__`, as in `Iterator`. */
    method Next() returns (r: Option<string>)
      requires Valid()
      modifies this
      ensures Valid() && words == old(words)
      ensures old(index) == |words| ==> r.None? && index == old(index)
      ensures old(index) < |words| ==> r == Some(words[old(index)]) && index == old(index) + 1
      ensures r.Some? ==> old(Remaining()) == [r.value] + Remaining()
      ensures r.None? ==> Remaining() == []
    {
      if index == |words| {
        return None;
      }
      var word := words[index];
      index := index + 1;
      r := Some(word);
    }

    /** `__iter__`: the object itself. */
    method Iter() returns (it: IterableAndIterator)
      ensures it == this
    {
      it := this;
    }

    /** `__next__` until `StopIteration`. */
    method Drain() returns (ys: seq<string>)
      requires Valid()
      modifies this
      ensures Valid() && words == old(words) && index == |words|
      ensures ys == old(Remaining())
    {
      ys := [];
      while true
        invariant Valid() && words == old(words)
        invariant old(Remaining()) == ys + Remaining()
        decreases |words| - index
      {
        var r := Next();
        if r.None? {
          return;
        }
        ys := ys + [r.value];
      }
    }

    /** `for thing in x`: a loop runs the object's own cursor to the end. */
    method ForLoop() returns (ys: seq<string>)
      requires Valid()
      modifies this
      ensures Valid() && words == old(words) && index == |words|
      ensures ys == old(Remaining())
    {
      var it := Iter();
      ys := it.Drain();
    }

    /** A fresh object's first loop yields every word; a second loop yields nothing. */
    method LoopTwice() returns (first: seq<string>, second: seq<string>)
      requires Valid() && index == 0
      modifies this
      ensures first == UpperWords(text)
      ensures second == []
    {
      first := ForLoop();
      second := ForLoop();
    }
  }

  lemma UpperIs(w: string, u: string)
    requires |w| == |u| && forall k :: 0 <= k < |w| ==> UpperChar(w[k]) == u[k]
    ensures Upper(w) == u
  {
  }

  lemma ExampleText()
    ensures Join(["yo", "momma", "so", "fat"], ' ') == "yo momma so fat"
    ensures WordList(["yo", "momma", "so", "fat"])
  {
    assert Join(["so", "fat"], ' ') == "so fat";
    assert Join(["momma", "so", "fat"], ' ') == "momma so fat";
  }

  lemma ExampleUpper()
    ensures UpperAll(["yo", "momma", "so", "fat"]) == ["YO", "MOMMA", "SO", "FAT"]
  {
    UpperIs("yo", "YO");
    UpperIs("momma", "MOMMA");
    UpperIs("so", "SO");
    UpperIs("fat", "FAT");
  }

  /** The module's example: a loop over `Iterable("yo momma so fat")` yields these. */
  lemma Example()
    ensures UpperWords("yo momma so fat") == ["YO", "MOMMA", "SO", "FAT"]
  {
    ExampleText();
    SplitWsJoin(["yo", "momma", "so", "fat"]);
    ExampleUpper();
  }
}
