/** The argument fix-up of the `autopep8` task: make the run in-place, add the
    ignore list, and put a dummy program name in front for `parse_args`. */
module Autopep8 {

  const InPlaceFlags: seq<string> := ["-i", "--in-place"]
  const IgnoreOption: string := "--ignore=E261,E265,E402,E501"
  const ProgramName: string := "dummy"

  /** Some form of the in-place flag is present. */
  predicate RequestsInPlace(args: seq<string>) {
    "-i" in args || "--in-place" in args
  }

  /** The guard as written: `any(x not in args for x in ['-i', '--in-place'])`,
      true unless BOTH forms are present. */
  predicate AsWrittenGuard(args: seq<string>) {
    exists x :: x in InPlaceFlags && x !in args
  }

  /** The fix-up as written: `-i` is appended unless both forms are already there. */
  function FixedArgsAsWritten(args: seq<string>): (r: seq<string>)
    ensures |r| == |args| + (if "-i" in args && "--in-place" in args then 2 else 3)
    ensures r[0] == ProgramName && r[1..|args| + 1] == args && r[|r| - 1] == IgnoreOption
    ensures !("-i" in args && "--in-place" in args) ==> r[|args| + 1] == "-i"
  {
    assert InPlaceFlags[0] == "-i" && InPlaceFlags[1] == "--in-place";
    [ProgramName] + (if AsWrittenGuard(args) then args + ["-i"] else args) + [IgnoreOption]
  }

  /** The fix-up as intended: `-i` is added only when neither form is present. */
  function FixedArgs(args: seq<string>): (r: seq<string>)
    ensures |r| == |args| + (if RequestsInPlace(args) then 2 else 3)
    ensures r[0] == ProgramName && r[1..|args| + 1] == args && r[|r| - 1] == IgnoreOption
    ensures RequestsInPlace(r)
    ensures !RequestsInPlace(args) ==> r[|args| + 1] == "-i"
  {
    [ProgramName] + (if !RequestsInPlace(args) then args + ["-i"] else args) + [IgnoreOption]
  }

  /** Adding the flag is done once: fixing up the arguments a second time (after
      dropping the program name and ignore list) adds no further `-i`. */
  lemma FixedArgsStable(args: seq<string>)
    ensures var r := FixedArgs(args);
      FixedArgs(r[1..|r| - 1]) == r
  {
    var r := FixedArgs(args);
    var mid := r[1..|r| - 1];
    assert RequestsInPlace(mid) by {
      if !RequestsInPlace(args) {
        assert mid[|args|] == "-i";
      } else if "-i" in args {
        var k :| 0 <= k < |args| && args[k] == "-i";
        assert mid[k] == "-i";
      } else {
        var k :| 0 <= k < |args| && args[k] == "--in-place";
        assert mid[k] == "--in-place";
      }
    }
    assert r == [ProgramName] + mid + [IgnoreOption];
  }

  /** The input `['-i']` shows the discrepancy: the guard as written appends a second
      `-i` although the in-place flag was already given. */
  lemma AsWrittenRepeatsFlag()
    ensures FixedArgsAsWritten(["-i"]) == [ProgramName, "-i", "-i", IgnoreOption]
    ensures FixedArgs(["-i"]) == [ProgramName, "-i", IgnoreOption]
  {
    assert "--in-place" in InPlaceFlags && "--in-place" !in ["-i"];
    assert "-i" in ["-i"];
  }

  /** The two guards differ exactly when one form of the flag is given but not both. */
  lemma {:induction false} GuardsDiffer(args: seq<string>)
    ensures AsWrittenGuard(args) != !RequestsInPlace(args) <==>
      ("-i" in args) != ("--in-place" in args)
  {
    assert InPlaceFlags[0] == "-i" && InPlaceFlags[1] == "--in-place";
    if AsWrittenGuard(args) {
      var x :| x in InPlaceFlags && x !in args;
      assert x == "-i" || x == "--in-place";
    }
  }

  /** The argument list the task mutates. */
  class ArgList {
    var items: seq<string>

    constructor(items: seq<string>)
      ensures this.items == items
    {
      this.items := items;
    }

    /** `args.append(x)`. */
    method Append(x: string)
      modifies this
      ensures items == old(items) + [x]
    {
      items := items + [x];
    }

    /** `args.insert(0, x)`. */
    method Prepend(x: string)
      modifies this
      ensures items == [x] + old(items)
    {
      items := [x] + items;
    }
  }

  /** `autopep8(args)` up to `parse_args`: the in-place fix-up of `args`, with the
      intended guard. */
  method FixUp(args: ArgList)
    modifies args
    ensures args.items == FixedArgs(old(args.items))
  {
    if !("-i" in args.items || "--in-place" in args.items) {
      args.Append("-i");
    }
    args.Append(IgnoreOption);
    args.Prepend(ProgramName);
  }
}
