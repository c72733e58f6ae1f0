/** Derived file names (CuffLinks.py, `build_name_insertion`): a name is cut
    at every `.` and `/`, the pieces before the last one are glued together
    with nothing between them, the insert follows, then the last piece. The
    delimiters are dropped, so "run1/sample.sam" with "_sorted" becomes
    "run1sample_sortedsam". */
module Naming {
  import opened Strings

  const Delimiters: set<char> := {'.', '/'}

  /** `''.join(re.split(r'\.|/', name)[0:-1]) + insert + re.split(r'\.|/', name)[-1]`.
      Every delimiter of the name is dropped and the insert is added. */
  function BuildName(name: string, insert: string): (r: string)
    ensures |r| == |name| - Count(name, Delimiters) + |insert|
  {
    var parts := Split(name, Delimiters);
    InitialPieces(name, Delimiters);
    SplitLast(name, Delimiters);
    StripHeadTail(name, Delimiters);
    Concat(parts[..|parts| - 1]) + insert + parts[|parts| - 1]
  }

  /** The derived name is the text before the last delimiter with every
      delimiter removed, then the insert, then the text after the last
      delimiter. */
  lemma BuildNameShape(name: string, insert: string)
    ensures BuildName(name, insert)
            == Strip(Head(name, Delimiters), Delimiters) + insert + Tail(name, Delimiters)
  {
    InitialPieces(name, Delimiters);
    SplitLast(name, Delimiters);
  }

  /** With an empty insert a name only loses its delimiters. */
  lemma {:induction false} BuildNameWithoutInsert(name: string)
    ensures BuildName(name, "") == Strip(name, Delimiters)
  {
    BuildNameShape(name, "");
    StripHeadTail(name, Delimiters);
  }

  /** A name without delimiters gets the insert in front of it. */
  lemma BuildNameUndelimited(name: string, insert: string)
    requires NoneIn(name, Delimiters)
    ensures BuildName(name, insert) == insert + name
  {
    SplitPlain(name, Delimiters);
    assert Split(name, Delimiters)[..0] == [];
  }

  /** The derived name ends with the text after the last delimiter, and it
      contains a delimiter exactly when the insert does. */
  lemma BuildNameEnding(name: string, insert: string)
    ensures var r := BuildName(name, insert);
            var t := Tail(name, Delimiters);
            |t| <= |r| && r[|r| - |t|..] == t
    ensures NoneIn(BuildName(name, insert), Delimiters) <==> NoneIn(insert, Delimiters)
  {
    BuildNameShape(name, insert);
    PlainAround(Strip(Head(name, Delimiters), Delimiters), insert, Tail(name, Delimiters));
  }

  lemma PlainAround(stem: string, insert: string, t: string)
    requires NoneIn(stem, Delimiters) && NoneIn(t, Delimiters)
    ensures var r := stem + insert + t; r[|r| - |t|..] == t
    ensures NoneIn(stem + insert + t, Delimiters) <==> NoneIn(insert, Delimiters)
  {
    var r := stem + insert + t;
    if !NoneIn(insert, Delimiters) {
      var i :| 0 <= i < |insert| && insert[i] in Delimiters;
      assert r[|stem| + i] == insert[i];
    }
    if NoneIn(insert, Delimiters) {
      forall i | 0 <= i < |r|
        ensures r[i] !in Delimiters
      {
        if i < |stem| {
          assert r[i] == stem[i];
        } else if i < |stem| + |insert| {
          assert r[i] == insert[i - |stem|];
        } else {
          assert r[i] == t[i - |stem| - |insert|];
        }
      }
    }
  }

  /** A "directory/stem.extension" name becomes directory, stem, insert and
      extension run together. */
  lemma BuildNameDirStemExt(dir: string, stem: string, ext: string, insert: string)
    requires NoneIn(dir, Delimiters) && NoneIn(stem, Delimiters) && NoneIn(ext, Delimiters)
    ensures BuildName(dir + "/" + stem + "." + ext, insert) == dir + stem + insert + ext
  {
    var name := dir + "/" + stem + "." + ext;
    SplitDirStemExt(dir, stem, ext);
    var parts := Split(name, Delimiters);
    assert parts[..2] == [dir, stem];
    ConcatPair(dir, stem);
  }

  lemma SplitDirStemExt(dir: string, stem: string, ext: string)
    requires NoneIn(dir, Delimiters) && NoneIn(stem, Delimiters) && NoneIn(ext, Delimiters)
    ensures Split(dir + "/" + stem + "." + ext, Delimiters) == [dir, stem, ext]
  {
    assert dir + "/" + stem + "." + ext == dir + ['/'] + (stem + ['.'] + ext);
    SplitAround(dir, '/', stem + ['.'] + ext, Delimiters);
    SplitAround(stem, '.', ext, Delimiters);
    SplitPlain(dir, Delimiters);
    SplitPlain(stem, Delimiters);
    SplitPlain(ext, Delimiters);
  }

  lemma ConcatPair(a: string, b: string)
    ensures Concat([a, b]) == a + b
  {
    assert [a, b][..1] == [a];
    assert [a][..0] == [];
    assert Concat([a]) == Concat([]) + a;
    assert Concat([a, b]) == Concat([a]) + b;
  }

  /** The sorted name the CuffLinks script derives for "run1/sample.sam". */
  lemma SortedNameExample()
    ensures BuildName("run1/sample.sam", "_sorted") == "run1sample_sortedsam"
  {
    assert "run1" + "/" + "sample" + "." + "sam" == "run1/sample.sam";
    assert "run1" + "sample" + "_sorted" + "sam" == "run1sample_sortedsam";
    BuildNameDirStemExt("run1", "sample", "sam", "_sorted");
  }

  /** A name with one dot and no slash keeps its stem, then the insert,
      then the extension. */
  lemma BuildNameStemExt(stem: string, ext: string, insert: string)
    requires NoneIn(stem, Delimiters) && NoneIn(ext, Delimiters)
    ensures BuildName(stem + "." + ext, insert) == stem + insert + ext
  {
    SplitAround(stem, '.', ext, Delimiters);
    SplitPlain(stem, Delimiters);
    SplitPlain(ext, Delimiters);
    var parts := Split(stem + "." + ext, Delimiters);
    assert parts == [stem, ext];
    assert parts[..1] == [stem];
    assert [stem][..0] == [];
    assert Concat([stem]) == Concat([]) + stem;
  }

  /** Dropping the directory separator does not change the derived name,
      so two different input paths can share one sorted name. */
  lemma BuildNameCollision(dir: string, stem: string, ext: string, insert: string)
    requires NoneIn(dir, Delimiters) && NoneIn(stem, Delimiters) && NoneIn(ext, Delimiters)
    ensures dir + "/" + stem + "." + ext != dir + stem + "." + ext
    ensures BuildName(dir + "/" + stem + "." + ext, insert) == BuildName(dir + stem + "." + ext, insert)
  {
    assert |dir + "/" + stem + "." + ext| == |dir + stem + "." + ext| + 1;
    BuildNameDirStemExt(dir, stem, ext, insert);
    NoneInAppend(dir, stem, Delimiters);
    assert dir + stem + "." + ext == (dir + stem) + "." + ext;
    BuildNameStemExt(dir + stem, ext, insert);
    assert (dir + stem) + insert + ext == dir + stem + insert + ext;
  }

  /** "a/b.sam" and "ab.sam" both get the sorted name "ab_sortedsam". */
  lemma SortedNameCollisionExample()
    ensures BuildName("a/b.sam", "_sorted") == BuildName("ab.sam", "_sorted") == "ab_sortedsam"
  {
    assert "a" + "/" + "b" + "." + "sam" == "a/b.sam";
    assert "a" + "b" + "." + "sam" == "ab.sam";
    assert "a" + "b" + "_sorted" + "sam" == "ab_sortedsam";
    BuildNameDirStemExt("a", "b", "sam", "_sorted");
    BuildNameCollision("a", "b", "sam", "_sorted");
  }

  /** `build_name_insertion`: one derived name per input name, in order,
      each depending only on the name at the same position. */
  method BuildNameInsertion(names: seq<string>, insert: string) returns (built: seq<string>)
    ensures |built| == |names|
    ensures forall i :: 0 <= i < |names| ==>
              built[i] == Strip(Head(names[i], Delimiters), Delimiters) + insert + Tail(names[i], Delimiters)
  {
    built := seq(|names|, _ => "");
    var index := 0;
    while index < |names|
      invariant 0 <= index <= |names| && |built| == |names|
      invariant forall j :: 0 <= j < index ==>
                  built[j] == Strip(Head(names[j], Delimiters), Delimiters) + insert + Tail(names[j], Delimiters)
    {
      BuildNameShape(names[index], insert);
      built := built[index := BuildName(names[index], insert)];
      index := index + 1;
    }
  }
}
