/** CuffMerge.py: writes a manifest of the cufflinks transcript files and
    runs cuffmerge on it. argv is `<cufflinks folder> <output folder>
    <run name> <overwrite>`; `present` is the file-system snapshot and
    `listing` the entries `os.listdir` returns for the cufflinks folder. */
module CuffMerge {
  import opened Base
  import opened Strings
  import opened Shell
  import opened Arguments

  const Newline: set<char> := {'\n'}
  const TranscriptsSuffix := "/transcripts.gtf"

  /** `'cuffmerge -o %s %s' % (output_path, manifest_path)` */
  function Command(manifest: string, output: string): (cmd: string)
    ensures cmd == JoinWords(["cuffmerge", "-o", output, manifest])
  {
    var w0 := ["cuffmerge", "-o"];
    JoinCons("cuffmerge", ["-o"]);
    assert w0 == ["cuffmerge"] + ["-o"];
    JoinAppendOne(w0, output);
    JoinAppendOne(w0 + [output], manifest);
    assert w0 + [output] + [manifest] == ["cuffmerge", "-o", output, manifest];
    "cuffmerge -o " + output + " " + manifest
  }

  /** `run_cuff_merge2`: runs when the output is missing or `overwrite` is
      truthy; `overwrite` is the raw argv string. */
  function RunCuffMerge(manifest: string, output: string, overwrite: string,
                        present: string -> bool): (issued: Option<string>)
    ensures issued.Some? <==> !present(output) || Truthy(overwrite)
    ensures issued.Some? ==> issued.value == Command(manifest, output)
  {
    if !present(output) || Truthy(overwrite) then Some(Command(manifest, output)) else None
  }

  /** `'%s.txt' % run_name`: the run name with a `.txt` extension. */
  function ManifestName(runName: string): (name: string)
    ensures |name| == |runName| + 4
    ensures name[..|runName|] == runName && name[|runName|..] == ".txt"
  {
    runName + ".txt"
  }

  /** One manifest line without its newline. */
  function ManifestLine(folder: string, entry: string): string
  {
    folder + "/" + entry + TranscriptsSuffix
  }

  /** What `make_manifest_text_file` writes: every listing entry, in listing
      order, as `'%s/%s/transcripts.gtf\n' % (cuff_links_path, folder)`. */
  function ManifestContent(folder: string, entries: seq<string>): (text: string)
    ensures text == "" <==> |entries| == 0
    ensures |entries| > 0 ==> text[|text| - 1] == '\n'
  {
    if |entries| == 0 then ""
    else ManifestLine(folder, entries[0]) + "\n" + ManifestContent(folder, entries[1..])
  }

  /** The manifest of a listing is the manifests of its parts, one after
      the other: lines keep the listing's order. */
  lemma {:induction false} ManifestContentAppend(folder: string, a: seq<string>, b: seq<string>)
    ensures ManifestContent(folder, a + b) == ManifestContent(folder, a) + ManifestContent(folder, b)
  {
    if |a| > 0 {
      var line := ManifestLine(folder, a[0]) + "\n";
      var ab := a + b;
      assert ab[0] == a[0] && ab[1..] == a[1..] + b;
      ManifestContentAppend(folder, a[1..], b);
      assert ManifestContent(folder, ab) == line + ManifestContent(folder, ab[1..]);
      assert ManifestContent(folder, a) == line + ManifestContent(folder, a[1..]);
    } else {
      assert a + b == b;
    }
  }

  /** The entry a manifest line names, when the line has the manifest shape. */
  function EntryOf(folder: string, line: string): Option<string>
  {
    var prefix := folder + "/";
    if |line| >= |prefix| + |TranscriptsSuffix|
       && line[..|prefix|] == prefix
       && line[|line| - |TranscriptsSuffix|..] == TranscriptsSuffix
    then Some(line[|prefix|..|line| - |TranscriptsSuffix|])
    else None
  }

  lemma LineEntry(folder: string, entry: string)
    ensures EntryOf(folder, ManifestLine(folder, entry)) == Some(entry)
  {
    var line := ManifestLine(folder, entry);
    var prefix := folder + "/";
    assert line == prefix + entry + TranscriptsSuffix;
    assert line[..|prefix|] == prefix;
    assert line[|line| - |TranscriptsSuffix|..] == TranscriptsSuffix;
    assert line[|prefix|..|line| - |TranscriptsSuffix|] == entry;
  }

  lemma LinePlain(folder: string, entry: string)
    requires NoneIn(folder, Newline) && NoneIn(entry, Newline)
    ensures NoneIn(ManifestLine(folder, entry), Newline)
  {
    NoneInAppend(folder, "/", Newline);
    NoneInAppend(folder + "/", entry, Newline);
    NoneInAppend(folder + "/" + entry, TranscriptsSuffix, Newline);
  }

  /** When neither the folder nor an entry contains a newline, the manifest
      has exactly one newline-terminated line per entry, in listing order,
      and each line gives back its entry. */
  lemma {:induction false} ManifestLines(folder: string, entries: seq<string>)
    requires NoneIn(folder, Newline)
    requires forall i :: 0 <= i < |entries| ==> NoneIn(entries[i], Newline)
    ensures var lines := Split(ManifestContent(folder, entries), Newline);
            && |lines| == |entries| + 1
            && lines[|entries|] == ""
            && (forall i :: 0 <= i < |entries| ==>
                  lines[i] == ManifestLine(folder, entries[i])
                  && EntryOf(folder, lines[i]) == Some(entries[i]))
    ensures Count(ManifestContent(folder, entries), Newline) == |entries|
  {
    if |entries| > 0 {
      var line := ManifestLine(folder, entries[0]);
      var rest := ManifestContent(folder, entries[1..]);
      ManifestLines(folder, entries[1..]);
      LinePlain(folder, entries[0]);
      SplitPlain(line, Newline);
      SplitAround(line, '\n', rest, Newline);
      assert ManifestContent(folder, entries) == line + ['\n'] + rest;
      var tailLines := Split(rest, Newline);
      var lines := Split(ManifestContent(folder, entries), Newline);
      assert lines == [line] + tailLines;
      forall i | 0 <= i < |entries|
        ensures lines[i] == ManifestLine(folder, entries[i])
        ensures EntryOf(folder, lines[i]) == Some(entries[i])
      {
        LineEntry(folder, entries[i]);
        if i > 0 {
          assert lines[i] == tailLines[i - 1];
          assert entries[1..][i - 1] == entries[i];
        }
      }
    }
  }

  /** The result of a completed run: the manifest file written and the
      cuffmerge command issued, if any. */
  datatype MergeRun = MergeRun(manifestName: string, manifest: string, issued: Option<string>)

  function FolderMissing(folder: string): string
  {
    "Folder \"" + folder + "\" does not exist."
  }

  /** `main`: four required arguments, both folders asserted to exist, the
      manifest written, then the gated merge. The manifest is written
      whether or not the merge runs, and because the output folder is
      asserted to exist the merge runs exactly when the overwrite argument is
      non-empty. */
  method Script(argv: seq<string>, present: string -> bool, listing: seq<string>)
    returns (r: Result<MergeRun>)
    ensures |argv| < 5 ==> r == Fail(Exit(MissingInputMessage))
    ensures r.Ok? <==> |argv| >= 5 && present(argv[2]) && present(argv[1])
    ensures |argv| >= 5 && !present(argv[2]) ==> r == Fail(AssertionFailed(FolderMissing(argv[2])))
    ensures |argv| >= 5 && present(argv[2]) && !present(argv[1]) ==>
              r == Fail(AssertionFailed(FolderMissing(argv[1])))
    ensures r.Ok? ==> && r.value.manifestName == argv[3] + ".txt"
                      && r.value.manifest == ManifestContent(argv[1], listing)
    ensures r.Ok? ==> (r.value.issued.Some? <==> Truthy(argv[4]))
    ensures r.Ok? && r.value.issued.Some? ==> r.value.issued.value == Command(argv[3] + ".txt", argv[2])
  {
    var resolved := ResolveArguments(argv, ["", "", "", ""]);
    if resolved.Fail? {
      return Fail(resolved.error);
    }
    assert ["", "", "", ""][3] == "";
    assert resolved.value == argv[1..5];
    var cuffLinksFolder, outputFolder := resolved.value[0], resolved.value[1];
    var runName, overwrite := resolved.value[2], resolved.value[3];
    if !present(outputFolder) {
      return Fail(AssertionFailed(FolderMissing(outputFolder)));
    }
    if !present(cuffLinksFolder) {
      return Fail(AssertionFailed(FolderMissing(cuffLinksFolder)));
    }
    var manifestName := ManifestName(runName);
    var manifest := ManifestContent(cuffLinksFolder, listing);
    var issued := RunCuffMerge(manifestName, outputFolder, overwrite, present);
    return Ok(MergeRun(manifestName, manifest, issued));
  }
}
