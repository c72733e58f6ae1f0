/** Command strings as the shell receives them. A command is a string; its
    words are the pieces between single spaces. Every command the scripts
    build is the space-joined list of its arguments, so when no argument
    contains a space the words are exactly the arguments. */
module Shell {
  import opened Strings

  const Blank: set<char> := {' '}

  /** The command's words: the pieces between single spaces (an empty
      argument shows up as an empty word). */
  function Words(cmd: string): seq<string>
  {
    Split(cmd, Blank)
  }

  /** An argument with no space in it, so it never splits into several
      words. (The shell still drops an empty one; see `Words`.) */
  predicate Plain(arg: string)
  {
    NoneIn(arg, Blank)
  }

  /** Python truthiness of a string: only the empty string is false. */
  predicate Truthy(s: string)
  {
    |s| > 0
  }

  /** The overwrite flag arrives as raw argv text, so the spellings a user
      would mean as false are still true; only an empty argument is false. */
  lemma OverwriteSpellings()
    ensures Truthy("False") && Truthy("false") && Truthy("0") && Truthy("True")
    ensures forall s: string :: Truthy(s) <==> s != ""
  {
  }

  /** The words joined with one space between neighbours. */
  function JoinWords(words: seq<string>): string
  {
    if |words| == 0 then ""
    else if |words| == 1 then words[0]
    else words[0] + " " + JoinWords(words[1..])
  }

  /** The text the scripts' `for p in paths: cmd += '%s ' % p` loops append:
      every path followed by one space. */
  function PathList(paths: seq<string>): (r: string)
    ensures r == "" <==> |paths| == 0
    ensures |paths| > 0 ==> r[|r| - 1] == ' '
    ensures |r| >= |paths|
  {
    if |paths| == 0 then ""
    else paths[0] + " " + PathList(paths[1..])
  }

  lemma JoinCons(w: string, rest: seq<string>)
    requires |rest| > 0
    ensures JoinWords([w] + rest) == w + " " + JoinWords(rest)
  {
    assert ([w] + rest)[1..] == rest;
  }

  /** Joining space-free words and splitting the result again gives the
      words back. */
  lemma {:induction false} WordsOfJoin(words: seq<string>)
    requires |words| > 0
    requires forall i :: 0 <= i < |words| ==> Plain(words[i])
    ensures Words(JoinWords(words)) == words
  {
    if |words| == 1 {
      SplitPlain(words[0], Blank);
    } else {
      var rest := words[1..];
      WordsOfJoin(rest);
      SplitPlain(words[0], Blank);
      SplitAround(words[0], ' ', JoinWords(rest), Blank);
      assert words[0] + " " + JoinWords(rest) == words[0] + [' '] + JoinWords(rest);
      assert words == [words[0]] + rest;
    }
  }

  lemma {:induction false} JoinAppendOne(words: seq<string>, w: string)
    requires |words| > 0
    ensures JoinWords(words + [w]) == JoinWords(words) + " " + w
  {
    if |words| > 1 {
      assert (words + [w])[1..] == words[1..] + [w];
      JoinAppendOne(words[1..], w);
    }
  }

  lemma {:induction false} JoinExtendLast(words: seq<string>, c: char)
    requires |words| > 0
    ensures var k := |words| - 1;
            JoinWords(words[..k] + [words[k] + [c]]) == JoinWords(words) + [c]
  {
    var k := |words| - 1;
    var head := words[..k];
    var last := words[k];
    assert head + [last] == words;
    if k > 0 {
      JoinAppendOne(head, last + [c]);
      JoinAppendOne(head, last);
      assert JoinWords(head) + " " + (last + [c]) == JoinWords(head) + " " + last + [c];
    } else {
      assert head + [last + [c]] == [last + [c]];
    }
  }

  /** Splitting a command into words and joining them again gives the
      command back, whatever its characters: the words determine it. */
  lemma {:induction false} JoinOfWords(cmd: string)
    ensures JoinWords(Words(cmd)) == cmd
  {
    if |cmd| > 0 {
      var prefix := cmd[..|cmd| - 1];
      var c := cmd[|cmd| - 1];
      JoinOfWords(prefix);
      var init := Words(prefix);
      assert cmd == prefix + [c];
      if c in Blank {
        JoinAppendOne(init, "");
      } else {
        JoinExtendLast(init, c);
      }
    }
  }

  lemma {:induction false} JoinAppend(xs: seq<string>, ys: seq<string>)
    requires |xs| > 0 && |ys| > 0
    ensures JoinWords(xs + ys) == JoinWords(xs) + " " + JoinWords(ys)
  {
    if |xs| > 1 {
      assert (xs + ys)[1..] == xs[1..] + ys;
      JoinAppend(xs[1..], ys);
    } else {
      assert (xs + ys)[1..] == ys;
    }
  }

  /** The paths loop followed by more words is the joined list of the paths
      and those words. */
  lemma {:induction false} PathListJoin(paths: seq<string>, rest: seq<string>)
    requires |rest| > 0
    ensures PathList(paths) + JoinWords(rest) == JoinWords(paths + rest)
  {
    if |paths| > 0 {
      PathListJoin(paths[1..], rest);
      assert (paths + rest)[1..] == paths[1..] + rest;
    } else {
      assert paths + rest == rest;
    }
  }
}
