/** Command-line arguments (`get_command_line_arguments` and
    `get_variable_command_line_arguments`, identical in CuffDiff.py and
    CuffMerge.py). `argv` is the process's argument vector, program name
    first; it is a parameter here instead of global state. */
module Arguments {
  import opened Base

  const MissingInputMessage := "Not enough command line input arguments. Critical Input Missing."

  /** The arguments after the program name. */
  function Supplied(argv: seq<string>): seq<string>
  {
    if |argv| == 0 then [] else argv[1..]
  }

  /** Position i takes `argv[i + 1]` when the vector is that long; otherwise
      its default, and an empty default means the argument is required: the
      script exits at the first required position that has no argument. */
  method ResolveArguments(argv: seq<string>, defaults: seq<string>) returns (r: Result<seq<string>>)
    ensures r.Ok? <==> forall i :: 0 <= i < |defaults| && defaults[i] == "" ==> i < |Supplied(argv)|
    ensures r.Fail? ==> r.error == Exit(MissingInputMessage)
    ensures r.Ok? ==> var k := Min(|defaults|, |Supplied(argv)|);
                      r.value == Supplied(argv)[..k] + defaults[k..]
    ensures |argv| > |defaults| ==> r == Ok(argv[1..|defaults| + 1])
  {
    var values := seq(|defaults|, _ => "");
    var index := 0;
    while index < |defaults|
      invariant 0 <= index <= |defaults| && |values| == |defaults|
      invariant forall j :: 0 <= j < index ==>
                  values[j] == if j + 1 < |argv| then argv[j + 1] else defaults[j]
      invariant forall j :: 0 <= j < index ==> j + 1 < |argv| || defaults[j] != ""
    {
      if index + 1 < |argv| {
        values := values[index := argv[index + 1]];
      } else if defaults[index] != "" {
        values := values[index := defaults[index]];
      } else {
        return Fail(Exit(MissingInputMessage));
      }
      index := index + 1;
    }
    var k := Min(|defaults|, |Supplied(argv)|);
    assert values == Supplied(argv)[..k] + defaults[k..];
    if |argv| > |defaults| {
      assert values == argv[1..|defaults| + 1];
    }
    return Ok(values);
  }

  /** Python's start of `argv[start:]`: a negative start counts from the
      end, and the result is clamped to the vector. */
  function SliceStart(length: nat, start: int): (lo: nat)
    ensures lo <= length
  {
    if start < 0 then (if length + start < 0 then 0 else length + start)
    else if start > length then length
    else start
  }

  /** The arguments from index `start` on. The result list is sized
      `len(argv) - start` and then filled from `argv[start:]`; for a
      non-negative start that is exactly `argv[start:]`, for a negative one
      the tail slice is padded with empty strings. */
  method VariableArguments(argv: seq<string>, start: int) returns (inputs: seq<string>)
    ensures start >= 0 ==> inputs == argv[Min(start, |argv|)..]
    ensures start >= 0 ==> |inputs| == if |argv| > start then |argv| - start else 0
    ensures start < 0 ==> var k := Min(|argv|, -start);
                          |inputs| == |argv| - start
                          && inputs[..k] == argv[|argv| - k..]
                          && forall i :: k <= i < |inputs| ==> inputs[i] == ""
  {
    var size := |argv| - start;
    inputs := if size > 0 then seq(size, _ => "") else [];
    var tail := argv[SliceStart(|argv|, start)..];
    var index := 0;
    while index < |tail|
      invariant 0 <= index <= |tail| <= |inputs|
      invariant |inputs| == if size > 0 then size else 0
      invariant inputs[..index] == tail[..index]
      invariant forall i :: index <= i < |inputs| ==> inputs[i] == ""
    {
      inputs := inputs[index := tail[index]];
      index := index + 1;
    }
  }
}
