/**
 * How `doStepsToJenkinsfile` assembles its Jenkinsfile text from the
 * rendered steps: a StringBuilder that receives a '\n' before a rendering
 * only when it already holds some text.
 *
 * `Build` is that builder, rendering by rendering. `Join` is the reference
 * reading ("one separator between neighbours"); `Split` undoes `Join` for
 * any non-empty list of single-line strings.
 */
module Lines {

  /** One turn of the builder loop: separate from what is there, if anything, then add the rendering. */
  function Append(built: string, rendering: string): string {
    if |built| > 0 then built + "\n" + rendering else rendering
  }

  /** The builder's text after appending every rendering in order. */
  function Build(renderings: seq<string>): string {
    if renderings == [] then ""
    else Append(Build(renderings[..|renderings| - 1]), renderings[|renderings| - 1])
  }

  /** The lines with exactly one '\n' between neighbours and none before or after. */
  function Join(lines: seq<string>): string {
    if lines == [] then ""
    else if |lines| == 1 then lines[0]
    else lines[0] + "\n" + Join(lines[1..])
  }

  /** The text cut at every '\n'; there is always at least one line. */
  function Split(text: string): (lines: seq<string>)
    ensures |lines| > 0
  {
    if text == [] then [""]
    else
      var rest := Split(text[1..]);
      if text[0] == '\n' then [""] + rest
      else [[text[0]] + rest[0]] + rest[1..]
  }

  predicate SingleLine(s: string) {
    forall i :: 0 <= i < |s| ==> s[i] != '\n'
  }

  lemma {:induction false} JoinSnoc(lines: seq<string>, last: string)
    requires lines != []
    ensures Join(lines + [last]) == Join(lines) + "\n" + last
  {
    if |lines| == 1 {
      assert (lines + [last])[1..] == [last];
    } else {
      assert (lines + [last])[1..] == lines[1..] + [last];
      JoinSnoc(lines[1..], last);
    }
  }

  /** The first rendering always opens the built text. */
  lemma {:induction false} BuildStartsWithFirst(renderings: seq<string>)
    requires renderings != []
    ensures renderings[0] <= Build(renderings)
  {
    var n := |renderings|;
    if n > 1 {
      var init := renderings[..n - 1];
      BuildStartsWithFirst(init);
      assert init[0] == renderings[0];
    }
  }

  /**
   * When the first rendering is not empty, the builder puts exactly one
   * '\n' between neighbouring renderings, and a single rendering is
   * returned as it is.
   */
  lemma {:induction false} BuildIsJoin(renderings: seq<string>)
    requires renderings != [] && renderings[0] != ""
    ensures Build(renderings) == Join(renderings)
  {
    var n := |renderings|;
    if n > 1 {
      var init := renderings[..n - 1];
      assert init[0] == renderings[0];
      BuildIsJoin(init);
      BuildStartsWithFirst(init);
      assert |Build(init)| > 0;
      assert renderings == init + [renderings[n - 1]];
      JoinSnoc(init, renderings[n - 1]);
    }
  }

  /**
   * A leading empty rendering leaves the builder empty, so no separator is
   * written for it: it vanishes from the text.
   */
  lemma {:induction false} BuildSkipsLeadingEmpty(renderings: seq<string>)
    requires renderings != [] && renderings[0] == ""
    ensures Build(renderings) == Build(renderings[1..])
  {
    var n := |renderings|;
    if n > 1 {
      var init := renderings[..n - 1];
      assert init[0] == "";
      BuildSkipsLeadingEmpty(init);
      assert renderings[1..][..n - 2] == init[1..];
    }
  }

  lemma {:induction false} SplitSingleLine(s: string)
    requires SingleLine(s)
    ensures Split(s) == [s]
  {
    if s != [] {
      SplitSingleLine(s[1..]);
      assert [s[0]] + s[1..] == s;
    }
  }

  lemma {:induction false} SplitFirstLine(line: string, rest: string)
    requires SingleLine(line)
    ensures Split(line + "\n" + rest) == [line] + Split(rest)
  {
    var text := line + "\n" + rest;
    if line == [] {
      assert text[1..] == rest;
    } else {
      assert text[1..] == line[1..] + "\n" + rest;
      SplitFirstLine(line[1..], rest);
      assert [line[0]] + line[1..] == line;
    }
  }

  /** Cutting the joined text at its separators gives back the single-line renderings. */
  lemma {:induction false} SplitJoin(lines: seq<string>)
    requires lines != []
    requires forall i :: 0 <= i < |lines| ==> SingleLine(lines[i])
    ensures Split(Join(lines)) == lines
  {
    if |lines| == 1 {
      SplitSingleLine(lines[0]);
    } else {
      SplitJoin(lines[1..]);
      SplitFirstLine(lines[0], Join(lines[1..]));
    }
  }
}
