/** `read_requirements` of the build script: splits the lines of requirements.txt
    into the runtime and the test requirements. Reading the file is left to the
    caller; the model starts from its lines. */
module Requirements {
  import opened Wrappers
  import opened Strings
  import opened Lists

  /** The line that separates runtime from test requirements. */
  const Divider: string := "# test requirements"

  datatype Requirements = Requirements(runtime: seq<string>, test: seq<string>)

  /** paver's `BuildFailure`, with its message. */
  datatype BuildFailure = BuildFailure(message: string)

  const MissingDivider: BuildFailure :=
    BuildFailure("Expected to find \"" + Divider + "\" in requirements.txt")

  /** No line is empty (so `l[0]` is defined for each). */
  predicate NoBlank(lines: seq<string>) {
    forall i :: 0 <= i < |lines| ==> lines[i] != []
  }

  /** The first line, stripped, or nothing when it strips to the empty string. */
  function CleanedLine(line: string): (r: seq<string>)
    ensures NoBlank(r) && |r| <= 1
    ensures forall i :: 0 <= i < |r| ==> IsStripped(r[i], Whitespace)
    ensures r == [] <==> AllIn(line, Whitespace)
  {
    var s := Strip(line, Whitespace);
    assert s == [] <==> AllIn(line, Whitespace) by {
      if AllIn(line, Whitespace) {
        AllInStripsToEmpty(line, Whitespace);
      } else {
        StripKeepsContent(line, Whitespace);
      }
    }
    if s == [] then [] else [s]
  }

  /** Every line stripped of surrounding whitespace; blank lines dropped. */
  function Cleaned(lines: seq<string>): (r: seq<string>)
    ensures NoBlank(r)
  {
    if lines == [] then [] else CleanedLine(lines[0]) + Cleaned(lines[1..])
  }

  /** Every cleaned line is stripped. */
  lemma {:induction false} CleanedStripped(lines: seq<string>)
    ensures forall i :: 0 <= i < |Cleaned(lines)| ==> IsStripped(Cleaned(lines)[i], Whitespace)
  {
    if lines != [] {
      CleanedStripped(lines[1..]);
    }
  }

  /** The lines that do not start with `#`, in their order. */
  function NonComments(lines: seq<string>): (r: seq<string>)
    requires NoBlank(lines)
    ensures |r| <= |lines|
  {
    if lines == [] then []
    else (if lines[0][0] == '#' then [] else [lines[0]]) + NonComments(lines[1..])
  }

  /** A line survives the comment filter exactly when it was there and does not
      start with `#`. */
  lemma {:induction false} NonCommentsMembers(lines: seq<string>, x: string)
    requires NoBlank(lines)
    ensures x in NonComments(lines) <==> x in lines && x != [] && x[0] != '#'
  {
    if lines != [] {
      NonCommentsMembers(lines[1..], x);
      assert lines == [lines[0]] + lines[1..];
    }
  }

  /** Each line is non-empty, stripped and not a comment. */
  predicate AllRequirementLines(lines: seq<string>) {
    forall i :: 0 <= i < |lines| ==>
      lines[i] != [] && IsStripped(lines[i], Whitespace) && lines[i][0] != '#'
  }

  /** Filtering comments out of stripped, non-blank lines leaves requirement lines. */
  lemma {:induction false} NonCommentsAreRequirements(lines: seq<string>)
    requires NoBlank(lines)
    requires forall i :: 0 <= i < |lines| ==> IsStripped(lines[i], Whitespace)
    ensures AllRequirementLines(NonComments(lines))
  {
    if lines != [] {
      NonCommentsAreRequirements(lines[1..]);
    }
  }

  /** `read_requirements()`: the runtime list is the non-comment lines before the
      first divider, the test list those after it. */
  function ReadRequirements(lines: seq<string>): (r: Result<Requirements, BuildFailure>)
    ensures r.Err? <==> forall i :: 0 <= i < |lines| ==> Strip(lines[i], Whitespace) != Divider
    ensures r.Err? ==> r.error == MissingDivider
    ensures r.Ok? ==> AllRequirementLines(r.value.runtime) && AllRequirementLines(r.value.test)
  {
    var cleaned := Cleaned(lines);
    CleanedContains(lines, Divider);
    match IndexOf(cleaned, Divider)
    case None => Err(MissingDivider)
    case Some(idx) =>
      CleanedStripped(lines);
      NonCommentsAreRequirements(cleaned[..idx]);
      NonCommentsAreRequirements(cleaned[idx + 1..]);
      Ok(Requirements(NonComments(cleaned[..idx]), NonComments(cleaned[idx + 1..])))
  }

  /** A non-empty stripped line survives cleaning exactly when some raw line strips to it. */
  lemma {:induction false} CleanedContains(lines: seq<string>, x: string)
    requires x != []
    ensures x in Cleaned(lines) <==> exists i :: 0 <= i < |lines| && Strip(lines[i], Whitespace) == x
  {
    if lines != [] {
      CleanedContains(lines[1..], x);
      if exists i :: 0 <= i < |lines| && Strip(lines[i], Whitespace) == x {
        var i :| 0 <= i < |lines| && Strip(lines[i], Whitespace) == x;
        if i > 0 { assert lines[1..][i - 1] == lines[i]; }
      }
      if exists i :: 0 <= i < |lines[1..]| && Strip(lines[1..][i], Whitespace) == x {
        var i :| 0 <= i < |lines[1..]| && Strip(lines[1..][i], Whitespace) == x;
        assert lines[i + 1] == lines[1..][i];
      }
    }
  }

  /** Cleaning works line by line. */
  lemma {:induction false} CleanedAppend(a: seq<string>, b: seq<string>)
    ensures Cleaned(a + b) == Cleaned(a) + Cleaned(b)
  {
    if a != [] {
      assert (a + b)[0] == a[0] && (a + b)[1..] == a[1..] + b;
      assert Cleaned(a + b) == CleanedLine(a[0]) + Cleaned(a[1..] + b);
      CleanedAppend(a[1..], b);
      assert Cleaned(a) == CleanedLine(a[0]) + Cleaned(a[1..]);
    } else {
      assert a + b == b;
    }
  }

  /** Dropping comments works line by line, so the kept lines keep their order. */
  lemma {:induction false} NonCommentsAppend(a: seq<string>, b: seq<string>)
    requires NoBlank(a) && NoBlank(b)
    ensures NoBlank(a + b)
    ensures NonComments(a + b) == NonComments(a) + NonComments(b)
  {
    if a != [] {
      NonCommentsAppend(a[1..], b);
      assert (a + b)[0] == a[0] && (a + b)[1..] == a[1..] + b;
    } else {
      assert a + b == b;
    }
  }

  /** The result in terms of the raw lines: with `j` the first line that strips to
      the divider, the runtime requirements are the cleaned, non-comment lines of
      `lines[..j]` and the test requirements those of `lines[j + 1..]`; the divider
      line itself is in neither list. */
  lemma {:induction false} SplitAtFirstDivider(lines: seq<string>, j: nat)
    requires j < |lines| && Strip(lines[j], Whitespace) == Divider
    requires forall i :: 0 <= i < j ==> Strip(lines[i], Whitespace) != Divider
    ensures ReadRequirements(lines) ==
      Ok(Requirements(NonComments(Cleaned(lines[..j])), NonComments(Cleaned(lines[j + 1..]))))
  {
    var before, after := Cleaned(lines[..j]), Cleaned(lines[j + 1..]);
    CleanedAround(lines, j);
    DividerNotBefore(lines, j);
    IndexOfAfter(before, Divider, after);
    SlicesAround(before, Divider, after);
  }

  /** Cleaning around a line that strips to the divider keeps the divider in place. */
  lemma CleanedAround(lines: seq<string>, j: nat)
    requires j < |lines| && Strip(lines[j], Whitespace) == Divider
    ensures Cleaned(lines) == Cleaned(lines[..j]) + [Divider] + Cleaned(lines[j + 1..])
  {
    var pre, post := lines[..j], lines[j + 1..];
    SplitAround(lines, j);
    assert Cleaned([lines[j]]) == [Divider] by {
      assert Cleaned([lines[j]]) == CleanedLine(lines[j]) + Cleaned([]);
    }
    CleanedAppend(pre + [lines[j]], post);
    CleanedAppend(pre, [lines[j]]);
  }

  /** No line before the first divider line cleans to the divider. */
  lemma DividerNotBefore(lines: seq<string>, j: nat)
    requires j <= |lines|
    requires forall i :: 0 <= i < j ==> Strip(lines[i], Whitespace) != Divider
    ensures Divider !in Cleaned(lines[..j])
  {
    var pre := lines[..j];
    forall i | 0 <= i < |pre| ensures Strip(pre[i], Whitespace) != Divider {
      assert pre[i] == lines[i];
    }
    CleanedContains(pre, Divider);
  }
}
