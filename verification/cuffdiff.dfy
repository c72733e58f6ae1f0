/** CuffDiff.py: runs cuffdiff over a variable number of sorted SAM files.
    argv is `<annotation> <output folder> <overwrite> <sam>...`; `present`
    is the file-system snapshot (`os.path.exists`). */
module CuffDiff {
  import opened Base
  import opened Shell
  import opened Arguments

  /** `'cuffdiff -p 8 -g %s -l' % annotation`, then every SAM file followed by
      a space, then `'-o %s' % output_path`. No space follows `-l`, so the
      first SAM file is glued to the flag; with no SAM file the flag is glued
      to `-o` instead. */
  function Command(sortedFiles: seq<string>, annotation: string, output: string): (cmd: string)
    ensures |sortedFiles| == 0 ==>
              cmd == JoinWords(["cuffdiff", "-p", "8", "-g", annotation, "-l-o", output])
    ensures |sortedFiles| > 0 ==>
              cmd == JoinWords(["cuffdiff", "-p", "8", "-g", annotation, "-l" + sortedFiles[0]]
                               + sortedFiles[1..] + ["-o", output])
  {
    CommandJoin(sortedFiles, annotation, output);
    "cuffdiff -p 8 -g " + annotation + " -l" + PathList(sortedFiles) + "-o " + output
  }

  /** What the shell receives when no path contains a space: the first SAM
      file arrives glued to `-l` as one word. */
  lemma CommandWords(sortedFiles: seq<string>, annotation: string, output: string)
    requires |sortedFiles| > 0
    requires forall i :: 0 <= i < |sortedFiles| ==> Plain(sortedFiles[i])
    requires Plain(annotation) && Plain(output)
    ensures Words(Command(sortedFiles, annotation, output))
            == ["cuffdiff", "-p", "8", "-g", annotation, "-l" + sortedFiles[0]] + sortedFiles[1..] + ["-o", output]
  {
    var words := ["cuffdiff", "-p", "8", "-g", annotation, "-l" + sortedFiles[0]] + sortedFiles[1..] + ["-o", output];
    Strings.NoneInAppend("-l", sortedFiles[0], Blank);
    forall i | 0 <= i < |words|
      ensures Plain(words[i])
    {
      if 6 <= i < |words| - 2 {
        assert words[i] == sortedFiles[i - 5];
      }
    }
    WordsOfJoin(words);
  }

  /** `cuffdiff -p 8 -g <annotation>` */
  lemma PrefixJoin(annotation: string)
    ensures JoinWords(["cuffdiff", "-p", "8", "-g", annotation]) == "cuffdiff -p 8 -g " + annotation
  {
    var w0 := ["cuffdiff", "-p"];
    JoinCons("cuffdiff", ["-p"]);
    assert w0 == ["cuffdiff"] + ["-p"];
    var w1 := w0 + ["8"];
    JoinAppendOne(w0, "8");
    var w2 := w1 + ["-g"];
    JoinAppendOne(w1, "-g");
    JoinAppendOne(w2, annotation);
    assert w2 + [annotation] == ["cuffdiff", "-p", "8", "-g", annotation];
  }

  lemma CommandJoin(sortedFiles: seq<string>, annotation: string, output: string)
    ensures var cmd := "cuffdiff -p 8 -g " + annotation + " -l" + PathList(sortedFiles) + "-o " + output;
            && (|sortedFiles| == 0 ==>
                  cmd == JoinWords(["cuffdiff", "-p", "8", "-g", annotation, "-l-o", output]))
            && (|sortedFiles| > 0 ==>
                  cmd == JoinWords(["cuffdiff", "-p", "8", "-g", annotation, "-l" + sortedFiles[0]]
                                   + sortedFiles[1..] + ["-o", output]))
  {
    if |sortedFiles| == 0 {
      CommandJoinNoFiles(annotation, output);
    } else {
      CommandJoinFiles(sortedFiles, annotation, output);
    }
  }

  lemma CommandJoinNoFiles(annotation: string, output: string)
    ensures "cuffdiff -p 8 -g " + annotation + " -l" + PathList([]) + "-o " + output
            == JoinWords(["cuffdiff", "-p", "8", "-g", annotation, "-l-o", output])
  {
    var front := ["cuffdiff", "-p", "8", "-g", annotation];
    var p := "cuffdiff -p 8 -g " + annotation;
    PrefixJoin(annotation);
    JoinAppendOne(front, "-l-o");
    JoinAppendOne(front + ["-l-o"], output);
    assert front + ["-l-o"] + [output] == ["cuffdiff", "-p", "8", "-g", annotation, "-l-o", output];
    assert p + " -l" + PathList([]) + "-o " + output == p + " " + "-l-o" + " " + output;
  }

  lemma CommandJoinFiles(sortedFiles: seq<string>, annotation: string, output: string)
    requires |sortedFiles| > 0
    ensures "cuffdiff -p 8 -g " + annotation + " -l" + PathList(sortedFiles) + "-o " + output
            == JoinWords(["cuffdiff", "-p", "8", "-g", annotation, "-l" + sortedFiles[0]]
                         + sortedFiles[1..] + ["-o", output])
  {
    var flag := "-l" + sortedFiles[0];
    var rest := sortedFiles[1..];
    var head := ["cuffdiff", "-p", "8", "-g", annotation, flag];
    var tail := PathList(rest) + "-o " + output;
    var p := "cuffdiff -p 8 -g " + annotation;
    OutputTailJoin(rest, output);
    FlagJoin(annotation, flag);
    JoinAppend(head, rest + ["-o", output]);
    assert head + (rest + ["-o", output]) == head + rest + ["-o", output];
    assert PathList(sortedFiles) == sortedFiles[0] + " " + PathList(rest);
    GluedFlag(p, sortedFiles[0], PathList(rest), output);
  }

  /** The SAM files after the first, then `-o <output>`. */
  lemma OutputTailJoin(rest: seq<string>, output: string)
    ensures PathList(rest) + "-o " + output == JoinWords(rest + ["-o", output])
  {
    JoinCons("-o", [output]);
    assert ["-o", output] == ["-o"] + [output];
    PathListJoin(rest, ["-o", output]);
  }

  /** `cuffdiff -p 8 -g <annotation>` and the glued flag word. */
  lemma FlagJoin(annotation: string, flag: string)
    ensures JoinWords(["cuffdiff", "-p", "8", "-g", annotation, flag])
            == "cuffdiff -p 8 -g " + annotation + " " + flag
  {
    PrefixJoin(annotation);
    JoinAppendOne(["cuffdiff", "-p", "8", "-g", annotation], flag);
    assert ["cuffdiff", "-p", "8", "-g", annotation] + [flag] == ["cuffdiff", "-p", "8", "-g", annotation, flag];
  }

  /** The text around the glued `-l` flag, regrouped word by word. */
  lemma GluedFlag(p: string, first: string, more: string, output: string)
    ensures p + " -l" + (first + " " + more) + "-o " + output
            == p + " " + ("-l" + first) + " " + (more + "-o " + output)
  {
    assert " -l" == " " + "-l";
  }

  /** `run_cuff_diff`: runs when the output is missing or `overwrite` is
      truthy. `overwrite` is the raw argv string, so any non-empty value,
      "False" included, forces a run. */
  function RunCuffDiff(sortedFiles: seq<string>, annotation: string, output: string,
                       overwrite: string, present: string -> bool): (issued: Option<string>)
    ensures issued.Some? <==> !present(output) || Truthy(overwrite)
    ensures issued.Some? ==> issued.value == Command(sortedFiles, annotation, output)
  {
    if !present(output) || Truthy(overwrite) then Some(Command(sortedFiles, annotation, output)) else None
  }

  function AnnotationMissing(annotation: string): string
  {
    "Annotation file path \"" + annotation + "\" does not exist."
  }

  function OutputMissing(output: string): string
  {
    "Output path \"" + output + "\" not found."
  }

  function SamMissing(samFile: string): string
  {
    "SAM file path \"" + samFile + "\" no found."
  }

  /** `main`: three required arguments, then the SAM files; every path is
      asserted to exist before the stage runs. Because the output folder is
      asserted to exist, cuffdiff runs exactly when the overwrite argument is
      non-empty. */
  method Script(argv: seq<string>, present: string -> bool) returns (r: Result<Option<string>>)
    ensures |argv| < 4 ==> r == Fail(Exit(MissingInputMessage))
    ensures r.Ok? <==> && |argv| >= 4 && present(argv[1]) && present(argv[2])
                       && forall i :: 4 <= i < |argv| ==> present(argv[i])
    ensures |argv| >= 4 && !present(argv[1]) ==> r == Fail(AssertionFailed(AnnotationMissing(argv[1])))
    ensures |argv| >= 4 && present(argv[1]) && !present(argv[2]) ==>
              r == Fail(AssertionFailed(OutputMissing(argv[2])))
    ensures r.Fail? && |argv| >= 4 && present(argv[1]) && present(argv[2]) ==>
              exists i :: && 4 <= i < |argv| && !present(argv[i])
                          && (forall j :: 4 <= j < i ==> present(argv[j]))
                          && r.error == AssertionFailed(SamMissing(argv[i]))
    ensures r.Ok? ==> (r.value.Some? <==> Truthy(argv[3]))
    ensures r.Ok? && r.value.Some? ==> r.value.value == Command(argv[4..], argv[1], argv[2])
  {
    var resolved := ResolveArguments(argv, ["", "", ""]);
    if resolved.Fail? {
      return Fail(resolved.error);
    }
    assert ["", "", ""][2] == "";
    assert resolved.value == argv[1..4];
    var annotation, outputFolder, overwrite := resolved.value[0], resolved.value[1], resolved.value[2];
    var sortedFiles := VariableArguments(argv, 4);
    if !present(annotation) {
      return Fail(AssertionFailed(AnnotationMissing(annotation)));
    }
    if !present(outputFolder) {
      return Fail(AssertionFailed(OutputMissing(outputFolder)));
    }
    var index := 0;
    while index < |sortedFiles|
      invariant 0 <= index <= |sortedFiles|
      invariant forall j :: 0 <= j < index ==> present(sortedFiles[j])
    {
      if !present(sortedFiles[index]) {
        assert sortedFiles[index] == argv[4 + index];
        return Fail(AssertionFailed(SamMissing(sortedFiles[index])));
      }
      index := index + 1;
    }
    assert forall i :: 4 <= i < |argv| ==> argv[i] == sortedFiles[i - 4];
    return Ok(RunCuffDiff(sortedFiles, annotation, outputFolder, overwrite, present));
  }
}
