/** The stages of CuffLinks.py. Each stage builds one shell command and
    issues it only when its output path does not exist yet. The file system
    is the predicate `present`, a snapshot taken before the stage runs; a
    stage returns the command it would issue, or None when it skips. */
module CuffLinks {
  import opened Base
  import opened Shell

  /** `'samtools sort %s %s' % (sam_file_name, sam_sorted)` */
  function SortCommand(samFile: string, sortedFile: string): (cmd: string)
    ensures cmd == JoinWords(["samtools", "sort", samFile, sortedFile])
  {
    var w0 := ["samtools", "sort"];
    JoinCons("samtools", ["sort"]);
    assert w0 == ["samtools"] + ["sort"];
    JoinAppendOne(w0, samFile);
    JoinAppendOne(w0 + [samFile], sortedFile);
    assert w0 + [samFile] + [sortedFile] == ["samtools", "sort", samFile, sortedFile];
    "samtools sort " + samFile + " " + sortedFile
  }

  /** `'cufflinks %s -g %s -o %s'` and `'cuffquant %s -g %s -o %s'`: the
      tool, the sorted SAM file, the annotation and the output folder. */
  function StageCommand(tool: string, samFile: string, annotation: string, output: string): (cmd: string)
    ensures cmd == JoinWords([tool, samFile, "-g", annotation, "-o", output])
  {
    var w0 := [tool, samFile];
    JoinCons(tool, [samFile]);
    assert w0 == [tool] + [samFile];
    var w1 := w0 + ["-g"];
    JoinAppendOne(w0, "-g");
    var w2 := w1 + [annotation];
    JoinAppendOne(w1, annotation);
    var w3 := w2 + ["-o"];
    JoinAppendOne(w2, "-o");
    JoinAppendOne(w3, output);
    assert w3 + [output] == [tool, samFile, "-g", annotation, "-o", output];
    tool + " " + samFile + " -g " + annotation + " -o " + output
  }

  /** `'cuffnorm '`, then every sorted file followed by a space, then
      `'-g %s -o %s %s' % (annotation, cuff_norm_output, transcripts)`. */
  function CuffNormCommand(transcripts: string, annotation: string, sortedFiles: seq<string>,
                           output: string): (cmd: string)
    ensures cmd == JoinWords(["cuffnorm"] + sortedFiles + ["-g", annotation, "-o", output, transcripts])
  {
    CuffNormJoin(transcripts, annotation, sortedFiles, output);
    "cuffnorm " + PathList(sortedFiles) + "-g " + annotation + " -o " + output + " " + transcripts
  }

  lemma CuffNormJoin(transcripts: string, annotation: string, sortedFiles: seq<string>, output: string)
    ensures "cuffnorm " + PathList(sortedFiles) + "-g " + annotation + " -o " + output + " " + transcripts
            == JoinWords(["cuffnorm"] + sortedFiles + ["-g", annotation, "-o", output, transcripts])
  {
    var tail := "-g " + annotation + " -o " + output + " " + transcripts;
    OptionsTail(annotation, output, transcripts);
    ToolListJoin("cuffnorm", sortedFiles, ["-g", annotation, "-o", output, transcripts], tail);
    assert "cuffnorm " == "cuffnorm" + " ";
  }

  /** A tool name, the paths loop, then a non-empty joined word list. */
  lemma ToolListJoin(tool: string, files: seq<string>, options: seq<string>, tail: string)
    requires |options| > 0 && tail == JoinWords(options)
    ensures tool + " " + PathList(files) + tail == JoinWords([tool] + files + options)
  {
    PathListJoin(files, options);
    JoinCons(tool, files + options);
    Regroup(tool, PathList(files), tail);
    ListRegroup([tool], files, options);
  }

  lemma Regroup(tool: string, paths: string, tail: string)
    ensures tool + " " + paths + tail == tool + " " + (paths + tail)
  {
  }

  lemma ListRegroup(a: seq<string>, b: seq<string>, c: seq<string>)
    ensures a + b + c == a + (b + c)
  {
  }

  /** `'-g %s -o %s %s'` is the join of its five words. */
  lemma OptionsTail(annotation: string, output: string, transcripts: string)
    ensures "-g " + annotation + " -o " + output + " " + transcripts
            == JoinWords(["-g", annotation, "-o", output, transcripts])
  {
    var w0 := ["-g", annotation];
    JoinCons("-g", [annotation]);
    assert w0 == ["-g"] + [annotation];
    var w1 := w0 + ["-o"];
    JoinAppendOne(w0, "-o");
    var w2 := w1 + [output];
    JoinAppendOne(w1, output);
    JoinAppendOne(w2, transcripts);
    assert w2 + [transcripts] == ["-g", annotation, "-o", output, transcripts];
  }

  /** `'cuffdiff -g %s -l %s %s %s -o %s'` over the annotation, three sorted
      files and the output. */
  function CuffDiffCommand(annotation: string, sorted1: string, sorted2: string, sorted3: string,
                           output: string): (cmd: string)
    ensures cmd == JoinWords(["cuffdiff", "-g", annotation, "-l", sorted1, sorted2, sorted3, "-o", output])
  {
    CuffDiffJoin(annotation, sorted1, sorted2, sorted3, output);
    "cuffdiff -g " + annotation + " -l " + sorted1 + " " + sorted2 + " " + sorted3 + " -o " + output
  }

  lemma CuffDiffJoin(annotation: string, sorted1: string, sorted2: string, sorted3: string, output: string)
    ensures "cuffdiff -g " + annotation + " -l " + sorted1 + " " + sorted2 + " " + sorted3 + " -o " + output
            == JoinWords(["cuffdiff", "-g", annotation, "-l", sorted1, sorted2, sorted3, "-o", output])
  {
    var head := ["cuffdiff", "-g", annotation, "-l"];
    var h := "cuffdiff -g " + annotation + " -l";
    DiffHeadJoin(annotation);
    SnocJoin(head, sorted1, sorted2, sorted3, "-o", output);
    assert head + [sorted1, sorted2, sorted3, "-o", output]
        == ["cuffdiff", "-g", annotation, "-l", sorted1, sorted2, sorted3, "-o", output];
    DiffRegroup(h, sorted1, sorted2, sorted3, output);
  }

  lemma DiffHeadJoin(annotation: string)
    ensures JoinWords(["cuffdiff", "-g", annotation, "-l"]) == "cuffdiff -g " + annotation + " -l"
  {
    var w0 := ["cuffdiff", "-g"];
    JoinCons("cuffdiff", ["-g"]);
    assert w0 == ["cuffdiff"] + ["-g"];
    JoinAppendOne(w0, annotation);
    JoinAppendOne(w0 + [annotation], "-l");
    assert w0 + [annotation] + ["-l"] == ["cuffdiff", "-g", annotation, "-l"];
  }

  /** Five more words after a non-empty word list. */
  lemma SnocJoin(words: seq<string>, a: string, b: string, c: string, d: string, e: string)
    requires |words| > 0
    ensures JoinWords(words + [a, b, c, d, e])
            == JoinWords(words) + " " + a + " " + b + " " + c + " " + d + " " + e
  {
    var w2 := words + [a, b];
    SnocPair(words, a, b);
    SnocPair(w2, c, d);
    JoinAppendOne(w2 + [c, d], e);
    Regroup5(words, a, b, c, d, e);
  }

  lemma Regroup5<T>(w: seq<T>, a: T, b: T, c: T, d: T, e: T)
    ensures w + [a, b] + [c, d] + [e] == w + [a, b, c, d, e]
  {
    assert [a, b] + [c, d] + [e] == [a, b, c, d, e];
  }

  lemma SnocPair(words: seq<string>, a: string, b: string)
    requires |words| > 0
    ensures JoinWords(words + [a, b]) == JoinWords(words) + " " + a + " " + b
  {
    JoinAppendOne(words, a);
    JoinAppendOne(words + [a], b);
    assert words + [a] + [b] == words + [a, b];
  }

  lemma DiffRegroup(h: string, sorted1: string, sorted2: string, sorted3: string, output: string)
    ensures h + " " + sorted1 + " " + sorted2 + " " + sorted3 + " " + "-o" + " " + output
            == h + " " + sorted1 + " " + sorted2 + " " + sorted3 + " -o " + output
  {
    assert " " + "-o" + " " == " -o ";
  }

  /** `sort_sam`: sorts unless the sorted file already present. */
  function SortSam(samFile: string, sortedFile: string, present: string -> bool): (issued: Option<string>)
    ensures issued.Some? <==> !present(sortedFile)
    ensures issued.Some? ==> issued.value == SortCommand(samFile, sortedFile)
  {
    if present(sortedFile) then None else Some(SortCommand(samFile, sortedFile))
  }

  /** `run_cuff_links` (tool "cufflinks") and `run_cuff_quant` (tool
      "cuffquant"): runs the tool on one sorted SAM file unless the output
      folder is present. */
  function RunStage(tool: string, samFile: string, annotation: string, output: string,
                    present: string -> bool): (issued: Option<string>)
    ensures issued.Some? <==> !present(output)
    ensures issued.Some? ==> issued.value == StageCommand(tool, samFile, annotation, output)
  {
    if present(output) then None else Some(StageCommand(tool, samFile, annotation, output))
  }

  /** `run_cuff_norm`: normalises unless the output present. */
  function RunCuffNorm(transcripts: string, annotation: string, sortedFiles: seq<string>,
                       output: string, present: string -> bool): (issued: Option<string>)
    ensures issued.Some? <==> !present(output)
    ensures issued.Some? ==> issued.value == CuffNormCommand(transcripts, annotation, sortedFiles, output)
  {
    if present(output) then None else Some(CuffNormCommand(transcripts, annotation, sortedFiles, output))
  }

  /** `run_cuff_diff` of CuffLinks.py: compares three samples unless the
      output present (this copy has no overwrite flag). */
  function RunCuffDiff(sorted1: string, sorted2: string, sorted3: string, annotation: string,
                       output: string, present: string -> bool): (issued: Option<string>)
    ensures issued.Some? <==> !present(output)
    ensures issued.Some? ==> issued.value == CuffDiffCommand(annotation, sorted1, sorted2, sorted3, output)
  {
    if present(output) then None else Some(CuffDiffCommand(annotation, sorted1, sorted2, sorted3, output))
  }

  /** The indices below n whose sorted file is missing, in increasing order. */
  function Pending(sortedFiles: seq<string>, n: nat, present: string -> bool): (idx: seq<nat>)
    requires n <= |sortedFiles|
    ensures forall k :: 0 <= k < |idx| ==> idx[k] < n
    ensures forall k, l :: 0 <= k < l < |idx| ==> idx[k] < idx[l]
    ensures forall i :: 0 <= i < n ==> (i in idx <==> !present(sortedFiles[i]))
  {
    if n == 0 then []
    else Pending(sortedFiles, n - 1, present) + (if present(sortedFiles[n - 1]) then [] else [n - 1])
  }

  /** The commands `sort_sam` issues for the first n pairs, in order. */
  function SortPairs(samFiles: seq<string>, sortedFiles: seq<string>, n: nat,
                     present: string -> bool): (issued: seq<string>)
    requires n <= |samFiles| && n <= |sortedFiles|
    ensures var idx := Pending(sortedFiles, n, present);
            issued == seq(|idx|, k requires 0 <= k < |idx| => SortCommand(samFiles[idx[k]], sortedFiles[idx[k]]))
  {
    if n == 0 then []
    else
      var last := SortSam(samFiles[n - 1], sortedFiles[n - 1], present);
      SortPairs(samFiles, sortedFiles, n - 1, present) + (if last.Some? then [last.value] else [])
  }

  /** `sort_all_sam_files`: `sort_sam` over `zip(sam_files, sorted_sam_files)`.
      The commands are those of the pairs, up to the shorter list, whose
      sorted file is missing, in pair order. */
  function SortAllSamFiles(samFiles: seq<string>, sortedFiles: seq<string>,
                           present: string -> bool): (issued: seq<string>)
    ensures var idx := Pending(sortedFiles, Min(|samFiles|, |sortedFiles|), present);
            issued == seq(|idx|, k requires 0 <= k < |idx| => SortCommand(samFiles[idx[k]], sortedFiles[idx[k]]))
    ensures |issued| <= Min(|samFiles|, |sortedFiles|)
  {
    var n := Min(|samFiles|, |sortedFiles|);
    PendingBound(sortedFiles, n, present);
    SortPairs(samFiles, sortedFiles, n, present)
  }

  /** Strictly increasing indices below n are at most n many. */
  lemma {:induction false} PendingBound(sortedFiles: seq<string>, n: nat, present: string -> bool)
    requires n <= |sortedFiles|
    ensures |Pending(sortedFiles, n, present)| <= n
  {
    if n > 0 {
      var rest := Pending(sortedFiles, n - 1, present);
      PendingBound(sortedFiles, n - 1, present);
      assert Pending(sortedFiles, n, present)
          == rest + (if present(sortedFiles[n - 1]) then [] else [n - 1]);
    }
  }

  lemma {:induction false} PendingAll(sortedFiles: seq<string>, n: nat, present: string -> bool)
    requires n <= |sortedFiles|
    requires forall i :: 0 <= i < n ==> !present(sortedFiles[i])
    ensures Pending(sortedFiles, n, present) == seq(n, i => i)
  {
    if n > 0 {
      PendingAll(sortedFiles, n - 1, present);
      assert seq(n - 1, i => i) + [n - 1] == seq(n, i => i);
    }
  }

  /** When no sorted file exists yet, every pair of the zip is sorted, in
      order. */
  lemma SortAllUnsorted(samFiles: seq<string>, sortedFiles: seq<string>, present: string -> bool)
    requires forall i :: 0 <= i < Min(|samFiles|, |sortedFiles|) ==> !present(sortedFiles[i])
    ensures var n := Min(|samFiles|, |sortedFiles|);
            SortAllSamFiles(samFiles, sortedFiles, present)
            == seq(n, i requires 0 <= i < n => SortCommand(samFiles[i], sortedFiles[i]))
  {
    PendingAll(sortedFiles, Min(|samFiles|, |sortedFiles|), present);
  }
}
