/** Character-level string operations. `Split` is the model of Python's
    `re.split` with a pattern that matches exactly one character from a set
    (`\.|/` for file names, a single space for command words). */
module Strings {

  /** No character of `s` is a separator. */
  predicate NoneIn(s: string, seps: set<char>)
  {
    forall i :: 0 <= i < |s| ==> s[i] !in seps
  }

  lemma NoneInAppend(a: string, b: string, seps: set<char>)
    ensures NoneIn(a + b, seps) <==> NoneIn(a, seps) && NoneIn(b, seps)
  {
    if NoneIn(a + b, seps) {
      forall i | 0 <= i < |a|
        ensures a[i] !in seps
      {
        assert a[i] == (a + b)[i];
      }
      forall i | 0 <= i < |b|
        ensures b[i] !in seps
      {
        assert b[i] == (a + b)[|a| + i];
      }
    }
    if NoneIn(a, seps) && NoneIn(b, seps) {
      forall i | 0 <= i < |a + b|
        ensures (a + b)[i] !in seps
      {
        if i < |a| {
          assert (a + b)[i] == a[i];
        } else {
          assert (a + b)[i] == b[i - |a|];
        }
      }
    }
  }

  /** The number of separator characters in `s`. */
  function Count(s: string, seps: set<char>): nat
  {
    if |s| == 0 then 0
    else Count(s[..|s| - 1], seps) + (if s[|s| - 1] in seps then 1 else 0)
  }

  /** `s` with every separator removed, the other characters kept in order. */
  function Strip(s: string, seps: set<char>): (r: string)
    ensures |r| + Count(s, seps) == |s|
    ensures NoneIn(r, seps)
  {
    if |s| == 0 then ""
    else Strip(s[..|s| - 1], seps) + (if s[|s| - 1] in seps then "" else [s[|s| - 1]])
  }

  /** The text after the last separator of `s` (all of `s` when it has none). */
  function Tail(s: string, seps: set<char>): (t: string)
    ensures |t| <= |s| && t == s[|s| - |t|..]
    ensures NoneIn(t, seps)
  {
    if |s| == 0 then ""
    else if s[|s| - 1] in seps then ""
    else Tail(s[..|s| - 1], seps) + [s[|s| - 1]]
  }

  /** Everything up to and including the last separator of `s`. */
  function Head(s: string, seps: set<char>): (h: string)
    ensures h + Tail(s, seps) == s
    ensures |h| > 0 ==> h[|h| - 1] in seps
  {
    var t := Tail(s, seps);
    TailBoundary(s, seps);
    assert s[..|s| - |t|] + t == s;
    s[..|s| - |t|]
  }

  /** The tail is maximal: a shorter tail stops at a separator. */
  lemma {:induction false} TailBoundary(s: string, seps: set<char>)
    ensures var t := Tail(s, seps); |t| < |s| ==> s[|s| - |t| - 1] in seps
  {
    if |s| > 0 && s[|s| - 1] !in seps {
      TailBoundary(s[..|s| - 1], seps);
    }
  }

  /** Python's `''.join(parts)`. */
  function Concat(parts: seq<string>): string
  {
    if |parts| == 0 then ""
    else Concat(parts[..|parts| - 1]) + parts[|parts| - 1]
  }

  /** Python's `re.split` on a one-character separator class: the maximal
      separator-free pieces of `s`, one more than there are separators. */
  function Split(s: string, seps: set<char>): (parts: seq<string>)
    ensures |parts| == Count(s, seps) + 1
    ensures forall i :: 0 <= i < |parts| ==> NoneIn(parts[i], seps)
  {
    if |s| == 0 then [""]
    else
      var init := Split(s[..|s| - 1], seps);
      var c := s[|s| - 1];
      if c in seps then init + [""]
      else init[..|init| - 1] + [init[|init| - 1] + [c]]
  }

  /** Splitting at a separator splits the two sides independently. */
  lemma {:induction false} SplitAround(a: string, c: char, b: string, seps: set<char>)
    requires c in seps
    ensures Split(a + [c] + b, seps) == Split(a, seps) + Split(b, seps)
    decreases |b|
  {
    var s := a + [c] + b;
    if |b| == 0 {
      assert s[..|s| - 1] == a;
      assert s[|s| - 1] == c;
    } else {
      var b' := b[..|b| - 1];
      var x := b[|b| - 1];
      assert s[..|s| - 1] == a + [c] + b';
      assert s[|s| - 1] == x;
      SplitAround(a, c, b', seps);
      var left := Split(a, seps);
      var right := Split(b', seps);
      var init := Split(s[..|s| - 1], seps);
      assert init == left + right;
      if x in seps {
        assert Split(s, seps) == init + [""];
        assert Split(b, seps) == right + [""];
        SplitAroundSep(left, right, init);
      } else {
        assert Split(s, seps) == init[..|init| - 1] + [init[|init| - 1] + [x]];
        assert Split(b, seps) == right[..|right| - 1] + [right[|right| - 1] + [x]];
        SplitAroundChar(left, right, x);
      }
    }
  }

  lemma SplitAroundSep(left: seq<string>, right: seq<string>, init: seq<string>)
    requires init == left + right
    ensures init + [""] == left + (right + [""])
  {
  }

  lemma SplitAroundChar(left: seq<string>, right: seq<string>, x: char)
    requires |right| > 0
    ensures var init := left + right;
            init[..|init| - 1] + [init[|init| - 1] + [x]]
            == left + (right[..|right| - 1] + [right[|right| - 1] + [x]])
  {
    var init := left + right;
    assert init[..|init| - 1] == left + right[..|right| - 1];
  }

  /** A separator-free string is a single piece. */
  lemma {:induction false} SplitPlain(w: string, seps: set<char>)
    requires NoneIn(w, seps)
    ensures Split(w, seps) == [w]
  {
    if |w| > 0 {
      SplitPlain(w[..|w| - 1], seps);
      assert w[..|w| - 1] + [w[|w| - 1]] == w;
    }
  }

  /** The last piece is the text after the last separator. */
  lemma {:induction false} SplitLast(s: string, seps: set<char>)
    ensures var parts := Split(s, seps); parts[|parts| - 1] == Tail(s, seps)
  {
    if |s| > 0 {
      SplitLast(s[..|s| - 1], seps);
    }
  }

  /** Gluing the pieces back together with nothing in between drops exactly
      the separators. */
  lemma {:induction false} ConcatSplit(s: string, seps: set<char>)
    ensures Concat(Split(s, seps)) == Strip(s, seps)
  {
    if |s| > 0 {
      var s' := s[..|s| - 1];
      var c := s[|s| - 1];
      ConcatSplit(s', seps);
      assert Strip(s, seps) == Strip(s', seps) + (if c in seps then "" else [c]);
      if c in seps {
        ConcatSplitSep(Split(s', seps), Split(s, seps));
      } else {
        ConcatSplitChar(Split(s', seps), Split(s, seps), c);
      }
    }
  }

  lemma ConcatSplitSep(init: seq<string>, parts: seq<string>)
    requires parts == init + [""]
    ensures Concat(parts) == Concat(init)
  {
    assert parts[..|parts| - 1] == init;
  }

  lemma ConcatSplitChar(init: seq<string>, parts: seq<string>, c: char)
    requires |init| > 0
    requires parts == init[..|init| - 1] + [init[|init| - 1] + [c]]
    ensures Concat(parts) == Concat(init) + [c]
  {
    var k := |init| - 1;
    assert parts[..|parts| - 1] == init[..k];
    assert Concat(init) == Concat(init[..k]) + init[k];
    assert Concat(parts) == Concat(init[..k]) + (init[k] + [c]);
  }

  lemma {:induction false} StripAppend(a: string, b: string, seps: set<char>)
    ensures Strip(a + b, seps) == Strip(a, seps) + Strip(b, seps)
    decreases |b|
  {
    if |b| > 0 {
      var b' := b[..|b| - 1];
      var x := b[|b| - 1];
      assert (a + b)[..|a + b| - 1] == a + b';
      assert (a + b)[|a + b| - 1] == x;
      StripAppend(a, b', seps);
      var extra := if x in seps then "" else [x];
      assert Strip(a + b, seps) == Strip(a + b', seps) + extra;
      assert Strip(b, seps) == Strip(b', seps) + extra;
      assert Strip(a, seps) + Strip(b', seps) + extra == Strip(a, seps) + (Strip(b', seps) + extra);
    } else {
      assert a + b == a;
    }
  }

  lemma {:induction false} StripPlain(w: string, seps: set<char>)
    requires NoneIn(w, seps)
    ensures Strip(w, seps) == w
  {
    if |w| > 0 {
      StripPlain(w[..|w| - 1], seps);
    }
  }

  /** Concatenation of all pieces but the last is the separator-free text
      before the last separator. */
  lemma InitialPieces(s: string, seps: set<char>)
    ensures var parts := Split(s, seps);
            Concat(parts[..|parts| - 1]) == Strip(Head(s, seps), seps)
  {
    var parts := Split(s, seps);
    var n := |parts|;
    var head := Head(s, seps);
    var tail := Tail(s, seps);
    ConcatSplit(s, seps);
    SplitLast(s, seps);
    StripAppend(head, tail, seps);
    StripPlain(tail, seps);
    assert Concat(parts) == Concat(parts[..n - 1]) + tail;
    assert Concat(parts[..n - 1]) + tail == Strip(head, seps) + tail;
    var x := Concat(parts[..n - 1]);
    var y := Strip(head, seps);
    assert |x| == |y|;
    assert (x + tail)[..|x|] == x;
    assert (y + tail)[..|y|] == y;
  }

  /** Removing the separators before the last one and keeping the text after
      it is removing every separator. */
  lemma StripHeadTail(s: string, seps: set<char>)
    ensures Strip(Head(s, seps), seps) + Tail(s, seps) == Strip(s, seps)
  {
    StripAppend(Head(s, seps), Tail(s, seps), seps);
    StripPlain(Tail(s, seps), seps);
  }

  /** `''.join` distributes over list concatenation. */
  lemma {:induction false} ConcatAppend(a: seq<string>, b: seq<string>)
    ensures Concat(a + b) == Concat(a) + Concat(b)
    decreases |b|
  {
    if |b| == 0 {
      assert a + b == a;
    } else {
      var b' := b[..|b| - 1];
      ConcatAppend(a, b');
      assert (a + b)[..|a + b| - 1] == a + b';
      assert (a + b)[|a + b| - 1] == b[|b| - 1];
    }
  }
}
