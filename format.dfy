/**
 * `format_answer`: rewrites the completion text line by line before it is
 * sent to Telegram. Outside fenced code blocks a Markdown ATX header line
 * (`# Title` to `###### Title`) becomes a bold line `**Title**`; fence lines
 * and everything inside a code block are copied unchanged. The input is the
 * list that `str.splitlines()` returns, so no line holds a line break.
 */
module Format {
  import opened Wrappers
  import opened Text

  /** A line that, once stripped, starts with three backticks opens or closes a code block. */
  predicate IsFence(line: string)
  {
    var stripped := Strip(line);
    |stripped| >= 3 && stripped[..3] == "```"
  }

  /** Number of `#` characters `s` starts with. */
  function HashRun(s: string): (n: nat)
    ensures n <= |s|
  {
    if s != [] && s[0] == '#' then 1 + HashRun(s[1..]) else 0
  }

  /** The run of hashes is maximal: all hashes, and not followed by one. */
  lemma {:induction false} HashRunIsMaximal(s: string)
    ensures forall i :: 0 <= i < HashRun(s) ==> s[i] == '#'
    ensures HashRun(s) < |s| ==> s[HashRun(s)] != '#'
  {
    if s != [] && s[0] == '#' {
      HashRunIsMaximal(s[1..]);
    }
  }

  /** Number of white-space characters `s` starts with. */
  function SpaceRun(s: string): (n: nat)
    ensures n <= |s|
  {
    if s != [] && IsSpace(s[0]) then 1 + SpaceRun(s[1..]) else 0
  }

  /** The run of white space is maximal: all white space, and not followed by any. */
  lemma {:induction false} SpaceRunIsMaximal(s: string)
    ensures AllSpace(s[..SpaceRun(s)])
    ensures SpaceRun(s) < |s| ==> !IsSpace(s[SpaceRun(s)])
  {
    if s != [] && IsSpace(s[0]) {
      SpaceRunIsMaximal(s[1..]);
      assert s[..SpaceRun(s)] == [s[0]] + s[1..][..SpaceRun(s[1..])];
    }
  }

  lemma {:induction false} SpaceRunOfSpace(w: string)
    requires AllSpace(w)
    ensures SpaceRun(w) == |w|
  {
    if w != [] {
      assert AllSpace(w[1..]);
      SpaceRunOfSpace(w[1..]);
    }
  }

  /**
   * `re.match(r"^(#{1,6})\s+(.+)$", line)`, giving group 2 when it matches.
   * The hashes are greedy and cannot give one back (the next character would
   * be `#`, not white space); the white space is greedy too, but gives its
   * last character back to `(.+)` when nothing else follows it.
   */
  function HeaderGroup(line: string): (group: Option<string>)
    ensures group.Some? ==> 0 < |group.value| < |line| && group.value == line[|line| - |group.value|..]
  {
    var n := HashRun(line);
    if n < 1 || n > 6 then None
    else
      var k := SpaceRun(line[n..]);
      if k == 0 then None
      else if n + k < |line| then Some(line[n + k..])
      else if k >= 2 then Some(line[|line| - 1..])
      else None
  }

  predicate IsHeader(line: string)
  {
    HeaderGroup(line).Some?
  }

  /**
   * The pattern read on its own terms: `line` is `h` hashes (1 to 6), then
   * `w` white-space characters (at least one), then at least one character.
   * Python's `.` does not match a line break and this predicate does not
   * exclude one; the lines come from `splitlines`, so they hold none.
   */
  ghost predicate Decomposes(line: string, h: nat, w: nat)
  {
    1 <= h <= 6 && 1 <= w && h + w < |line|
    && (forall i :: 0 <= i < h ==> line[i] == '#')
    && (forall i :: h <= i < h + w ==> IsSpace(line[i]))
  }

  /** The white space the greedy matcher leaves before group 2. */
  function GreedySpace(line: string): nat
    requires HashRun(line) <= |line|
  {
    var n := HashRun(line);
    var k := SpaceRun(line[n..]);
    if n + k < |line| || k == 0 then k else k - 1
  }

  /** Any split that fits the pattern takes all the hashes and at most the greedy white space. */
  lemma DecompositionIsBounded(line: string, h: nat, w: nat)
    requires Decomposes(line, h, w)
    ensures h == HashRun(line) && w <= GreedySpace(line)
  {
    var n := HashRun(line);
    HashRunIsMaximal(line);
    assert line[h] != '#';
    assert h == n;
    var k := SpaceRun(line[n..]);
    SpaceRunIsMaximal(line[n..]);
    assert n + k < |line| ==> !IsSpace(line[n + k]);
    assert w <= k;
  }

  /** When the matcher matches, its own split fits the pattern. */
  lemma GreedyDecomposes(line: string)
    requires IsHeader(line)
    ensures Decomposes(line, HashRun(line), GreedySpace(line))
    ensures HeaderGroup(line) == Some(line[HashRun(line) + GreedySpace(line)..])
  {
    var n := HashRun(line);
    var k := SpaceRun(line[n..]);
    var v := GreedySpace(line);
    HashRunIsMaximal(line);
    SpaceRunIsMaximal(line[n..]);
    forall i | n <= i < n + v ensures IsSpace(line[i]) {
      assert line[i] == line[n..][..k][i - n];
    }
  }

  /** When some split fits the pattern, the matcher matches. */
  lemma DecompositionIsFound(line: string, h: nat, w: nat)
    requires Decomposes(line, h, w)
    ensures IsHeader(line)
  {
    DecompositionIsBounded(line, h, w);
    SpaceRunIsMaximal(line[h..]);
  }

  /**
   * The greedy matcher agrees with the pattern: it matches exactly when some
   * split of the line fits the pattern, and its group 2 starts after the
   * longest run of white space that any such split can take.
   */
  lemma HeaderGroupMatchesPattern(line: string)
    ensures IsHeader(line) <==> exists h: nat, w: nat :: Decomposes(line, h, w)
    ensures IsHeader(line) ==>
              Decomposes(line, HashRun(line), GreedySpace(line))
              && HeaderGroup(line) == Some(line[HashRun(line) + GreedySpace(line)..])
              && forall h: nat, w: nat :: Decomposes(line, h, w) ==> h == HashRun(line) && w <= GreedySpace(line)
  {
    if IsHeader(line) {
      GreedyDecomposes(line);
      forall h: nat, w: nat | Decomposes(line, h, w)
        ensures h == HashRun(line) && w <= GreedySpace(line)
      {
        DecompositionIsBounded(line, h, w);
      }
    } else {
      forall h: nat, w: nat | Decomposes(line, h, w) ensures false {
        DecompositionIsFound(line, h, w);
      }
    }
  }

  /** The bold title is the text after the hashes, stripped. */
  lemma HeaderTitle(line: string)
    requires IsHeader(line)
    ensures Strip(HeaderGroup(line).value) == Strip(line[HashRun(line)..])
  {
    var n := HashRun(line);
    var rest := line[n..];
    var k := SpaceRun(rest);
    if n + k < |line| {
      assert HeaderGroup(line).value == line[n + k..];
      TitleAfterSpace(rest, k);
      DropDrop(line, n, k);
    } else {
      assert HeaderGroup(line).value == line[|line| - 1..];
      assert k == |rest|;
      TitleOfSpaceOnly(rest);
      DropDrop(line, n, |rest| - 1);
    }
  }

  lemma TitleAfterSpace(rest: string, k: nat)
    requires k == SpaceRun(rest) && k < |rest|
    ensures Strip(rest[k..]) == Strip(rest)
  {
    SpaceRunIsMaximal(rest);
    assert rest == rest[..k] + rest[k..];
    StripSpacePrefix(rest[..k], rest[k..]);
  }

  lemma TitleOfSpaceOnly(rest: string)
    requires rest != [] && SpaceRun(rest) == |rest|
    ensures Strip(rest[|rest| - 1..]) == Strip(rest) == []
  {
    SpaceRunIsMaximal(rest);
    assert rest[..|rest|] == rest;
    StripAllSpace(rest);
    var last := rest[|rest| - 1..];
    assert last == [rest[|rest| - 1]];
    StripAllSpace(last);
  }

  /** Number of fence lines in `lines`. */
  function FenceCount(lines: seq<string>): nat
  {
    if lines == [] then 0
    else FenceCount(lines[..|lines| - 1]) + (if IsFence(lines[|lines| - 1]) then 1 else 0)
  }

  /** The line after `before` lies inside a code block when an odd number of fences precede it. */
  predicate InCode(before: seq<string>)
  {
    FenceCount(before) % 2 == 1
  }

  /** What becomes of one line, given whether a code block is open. */
  function FormatLine(line: string, inCode: bool): (out: string)
    ensures out == line || (!inCode && !IsFence(line) && IsHeader(line))
  {
    if IsFence(line) || inCode then line
    else match HeaderGroup(line)
      case Some(title) => "**" + Strip(title) + "**"
      case None => line
  }

  /** The output lines: one per input line, in order. */
  function Formatted(lines: seq<string>): (out: seq<string>)
    ensures |out| == |lines|
  {
    seq(|lines|, i requires 0 <= i < |lines| => FormatLine(lines[i], InCode(lines[..i])))
  }

  predicate NoLineBreaks(lines: seq<string>)
  {
    forall i :: 0 <= i < |lines| ==> '\n' !in lines[i]
  }

  /** Passing line `i` flips the in-code state exactly when line `i` is a fence. */
  lemma InCodeStep(lines: seq<string>, i: nat)
    requires i < |lines|
    ensures InCode(lines[..i + 1]) == (InCode(lines[..i]) != IsFence(lines[i]))
  {
    assert lines[..i + 1][..i] == lines[..i];
  }

  /** The output for the first `i + 1` lines extends that for the first `i` by line `i`'s output. */
  lemma FormattedStep(lines: seq<string>, i: nat)
    requires i < |lines|
    ensures Formatted(lines[..i + 1]) == Formatted(lines[..i]) + [FormatLine(lines[i], InCode(lines[..i]))]
  {
    var a, b := lines[..i + 1], lines[..i];
    var left := Formatted(a);
    var right := Formatted(b) + [FormatLine(lines[i], InCode(b))];
    forall k | 0 <= k < i + 1 ensures left[k] == right[k] {
      if k < i {
        assert a[..k] == b[..k] && a[k] == b[k];
      } else {
        assert a[..k] == b && a[k] == lines[i];
      }
    }
    assert left == right;
  }

  /**
   * `format_answer` itself: one pass over the lines with an in-code flag,
   * then the output lines joined with `"\n"`.
   */
  method FormatAnswer(lines: seq<string>) returns (text: string)
    ensures text == Join(Formatted(lines), '\n')
    ensures NoLineBreaks(lines) && lines != [] ==> SplitOn(text, '\n') == Formatted(lines)
  {
    var inCode := false;
    var out: seq<string> := [];
    for i := 0 to |lines|
      invariant inCode == InCode(lines[..i])
      invariant out == Formatted(lines[..i])
    {
      var line := lines[i];
      InCodeStep(lines, i);
      FormattedStep(lines, i);
      var stripped := Strip(line);
      if |stripped| >= 3 && stripped[..3] == "```" {
        assert FormatLine(line, inCode) == line;
        inCode := !inCode;
        out := out + [line];
        continue;
      }
      if !inCode {
        var m := HeaderGroup(line);
        if m.Some? {
          var title := Strip(m.value);
          assert FormatLine(line, inCode) == "**" + title + "**";
          out := out + ["**" + title + "**"];
          continue;
        }
      }
      assert FormatLine(line, inCode) == line;
      out := out + [line];
    }
    assert lines[..|lines|] == lines;
    text := Join(out, '\n');
    if NoLineBreaks(lines) && lines != [] {
      FormattedNoLineBreaks(lines);
      SplitJoin(out, '\n');
    }
  }

  /** A bold title line: neither a fence nor a header. */
  lemma BoldIsPlain(title: string)
    ensures !IsFence("**" + title + "**") && !IsHeader("**" + title + "**")
  {
    var b := "**" + title + "**";
    StripUnpadded(b);
  }

  lemma FormattedNoLineBreaks(lines: seq<string>)
    requires NoLineBreaks(lines)
    ensures NoLineBreaks(Formatted(lines))
  {
    forall i | 0 <= i < |lines| ensures '\n' !in Formatted(lines)[i] {
      var line := lines[i];
      var g := HeaderGroup(line);
      if !IsFence(line) && !InCode(lines[..i]) && g.Some? {
        assert '\n' !in g.value by {
          var n := HashRun(line);
          var k := SpaceRun(line[n..]);
          assert g.value == line[n + k..] || g.value == line[|line| - 1..];
        }
        StripKeepsOut(g.value, '\n');
      }
    }
  }

  /**
   * What happens to line `i`: a fence is copied and flips the in-code flag;
   * any other line leaves the flag alone; a line inside a code block is
   * copied; outside, a header becomes its stripped title in bold and any
   * other line is copied.
   */
  lemma {:induction false} FormattedLine(lines: seq<string>, i: nat)
    requires i < |lines|
    ensures IsFence(lines[i]) ==> Formatted(lines)[i] == lines[i] && InCode(lines[..i + 1]) == !InCode(lines[..i])
    ensures !IsFence(lines[i]) ==> InCode(lines[..i + 1]) == InCode(lines[..i])
    ensures InCode(lines[..i]) ==> Formatted(lines)[i] == lines[i]
    ensures !InCode(lines[..i]) && !IsFence(lines[i]) ==>
              Formatted(lines)[i] == if IsHeader(lines[i]) then "**" + Strip(lines[i][HashRun(lines[i])..]) + "**" else lines[i]
  {
    InCodeStep(lines, i);
    if IsHeader(lines[i]) {
      HeaderTitle(lines[i]);
    }
  }

  /** An indented `# x` is not a header: the pattern is anchored at the start of the unstripped line. */
  lemma IndentedIsNotHeader(line: string)
    requires line != [] && IsSpace(line[0])
    ensures !IsHeader(line)
  {
  }

  /** Seven or more leading hashes are not a header. */
  lemma SevenHashesIsNotHeader(rest: string)
    ensures !IsHeader("#######" + rest)
  {
    var line := "#######" + rest;
    HashRunIsMaximal(line);
  }

  /** `#` followed by two or more white-space characters and nothing else becomes `****`. */
  lemma HashAndSpacesBecomesEmptyBold(w: string)
    requires |w| >= 2 && AllSpace(w)
    ensures FormatLine("#" + w, false) == "****"
  {
    var line := "#" + w;
    assert line[1..] == w;
    assert HashRun(line) == 1;
    SpaceRunOfSpace(w);
    assert HeaderGroup(line) == Some(line[|line| - 1..]);
    assert AllSpace(line[|line| - 1..]) by {
      assert line[|line| - 1] == w[|w| - 1];
    }
    StripAllSpace(line[|line| - 1..]);
    assert StripStart(line) == line;
    StripEndSpaceSuffix("#", w);
    assert Strip(line) == "#";
  }

  lemma {:induction false} FenceCountByFences(a: seq<string>, b: seq<string>)
    requires |a| == |b|
    requires forall k :: 0 <= k < |a| ==> (IsFence(a[k]) <==> IsFence(b[k]))
    ensures FenceCount(a) == FenceCount(b)
  {
    if a != [] {
      FenceCountByFences(a[..|a| - 1], b[..|b| - 1]);
    }
  }

  /** The output has the same fences in the same places, so the same lines lie inside code. */
  lemma SameCodeBlocks(lines: seq<string>, i: nat)
    requires i <= |lines|
    ensures InCode(Formatted(lines)[..i]) == InCode(lines[..i])
  {
    var out := Formatted(lines);
    forall k | 0 <= k < i ensures IsFence(out[k]) <==> IsFence(lines[k]) {
      var g := HeaderGroup(lines[k]);
      if !IsFence(lines[k]) && !InCode(lines[..k]) && g.Some? {
        BoldIsPlain(Strip(g.value));
      }
    }
    FenceCountByFences(out[..i], lines[..i]);
  }

  /** Outside code blocks, no output line is still a header. */
  lemma NoHeaderOutsideCode(lines: seq<string>, i: nat)
    requires i < |lines|
    requires !InCode(Formatted(lines)[..i]) && !IsFence(Formatted(lines)[i])
    ensures !IsHeader(Formatted(lines)[i])
  {
    SameCodeBlocks(lines, i);
    var g := HeaderGroup(lines[i]);
    if !IsFence(lines[i]) && g.Some? {
      BoldIsPlain(Strip(g.value));
    }
  }

  /** Formatting an already formatted answer changes nothing. */
  lemma FormattedIdempotent(lines: seq<string>)
    ensures Formatted(Formatted(lines)) == Formatted(lines)
  {
    var out := Formatted(lines);
    forall i | 0 <= i < |out| ensures Formatted(out)[i] == out[i] {
      SameCodeBlocks(lines, i);
      if !InCode(out[..i]) && !IsFence(out[i]) {
        NoHeaderOutsideCode(lines, i);
      }
    }
  }
}
