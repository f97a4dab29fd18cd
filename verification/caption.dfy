/**
  Caption post-processing of the image-captioning provider's output
  (`get_image_caption` in app.py): the free text is split on the blank-line
  separator "\n\n", as Python's `str.split('\n\n')` does, and only the first
  piece is kept.
 */
module Caption {
  import opened Wrappers

  /** The blank-line separator the provider output is split on. */
  const Sep: string := "\n\n"

  /** `s` has an occurrence of the separator starting at index `i`. */
  predicate SepAt(s: string, i: int) {
    0 <= i && i + 1 < |s| && s[i] == '\n' && s[i + 1] == '\n'
  }

  /** `s` contains the separator somewhere. */
  predicate HasSep(s: string) {
    exists i :: 0 <= i < |s| && SepAt(s, i)
  }

  /** Index of the leftmost occurrence of the separator, as `str.find` gives it. */
  function FirstSep(s: string): (r: Option<nat>)
    ensures r.None? <==> !HasSep(s)
    ensures r.Some? ==> SepAt(s, r.value)
    ensures r.Some? ==> forall j :: 0 <= j < r.value ==> !SepAt(s, j)
    decreases |s|
  {
    if |s| < 2 then
      None
    else if s[0] == '\n' && s[1] == '\n' then
      assert SepAt(s, 0);
      Some(0)
    else
      match FirstSep(s[1..])
      case None =>
        assert forall j :: SepAt(s, j) ==> j >= 1 && SepAt(s[1..], j - 1);
        None
      case Some(k) =>
        assert forall j :: 0 < j <= k + 1 ==> (SepAt(s, j) <==> SepAt(s[1..], j - 1));
        assert SepAt(s, k + 1);
        Some(k + 1)
  }

  /** Python's `sep.join(pieces)` with the blank-line separator. */
  function Join(pieces: seq<string>): string
    decreases |pieces|
  {
    if |pieces| == 0 then ""
    else if |pieces| == 1 then pieces[0]
    else pieces[0] + Sep + Join(pieces[1..])
  }

  /**
    Python's `s.split('\n\n')`: cut at every leftmost, non-overlapping
    occurrence of the separator. The pieces never contain the separator,
    joining them back gives the original text, and no piece before the
    last ends in a newline, so each cut is at the leftmost separator.
   */
  function Split(s: string): (r: seq<string>)
    ensures |r| >= 1
    ensures Join(r) == s
    ensures forall k :: 0 <= k < |r| ==> !HasSep(r[k])
    ensures |r| == 1 <==> !HasSep(s)
    ensures forall k :: 0 <= k < |r| - 1 ==> !(|r[k]| > 0 && r[k][|r[k]| - 1] == '\n')
    decreases |s|
  {
    match FirstSep(s)
    case None => [s]
    case Some(i) =>
      var head := s[..i];
      var rest := Split(s[i + 2..]);
      assert !HasSep(head) by {
        forall j | SepAt(head, j) ensures SepAt(s, j) { }
      }
      assert !(|head| > 0 && head[|head| - 1] == '\n') by {
        if |head| > 0 && head[|head| - 1] == '\n' {
          assert SepAt(s, i - 1);
        }
      }
      assert Join([head] + rest) == head + Sep + Join(rest) by {
        assert ([head] + rest)[1..] == rest;
      }
      assert s == head + Sep + s[i + 2..];
      [head] + rest
  }

  /**
    The caption kept from the provider output: `output.split('\n\n')[0]`.
    It is the text before the first blank line, or all of it when there is
    no blank line, and it never holds a blank line itself.
   */
  function FirstParagraph(output: string): (caption: string)
    ensures |caption| <= |output|
    ensures caption == output[..|caption|]
    ensures !HasSep(caption)
    ensures !HasSep(output) ==> caption == output
    ensures HasSep(output) ==>
              SepAt(output, |caption|) && forall j :: 0 <= j < |caption| ==> !SepAt(output, j)
  {
    var pieces := Split(output);
    match FirstSep(output)
    case None => pieces[0]
    case Some(i) =>
      assert pieces[0] == output[..i];
      pieces[0]
  }

  /** Keeping the first paragraph twice is the same as keeping it once. */
  lemma FirstParagraphIdempotent(output: string)
    ensures FirstParagraph(FirstParagraph(output)) == FirstParagraph(output)
  {
  }

  /**
    The caption is exactly the text before the leftmost blank line: for every
    split of the output as `c + "\n\n" + tail` with no blank line in `c`,
    the caption is `c`.
   */
  lemma FirstParagraphBeforeSeparator(c: string, tail: string)
    requires !HasSep(c)
    requires !(|c| > 0 && c[|c| - 1] == '\n')
    ensures FirstParagraph(c + Sep + tail) == c
  {
    var output := c + Sep + tail;
    assert SepAt(output, |c|);
    forall j | 0 <= j < |c|
      ensures !SepAt(output, j)
    {
      if j + 1 < |c| {
        assert !SepAt(c, j);
      }
    }
    assert output[..|c|] == c;
  }

  /** A caption followed by unrequested commentary keeps only the caption. */
  lemma CaptionDropsCommentary()
    ensures FirstParagraph("A cat on a sofa." + "\n\n" + "Additional detail the user didn't ask for.")
            == "A cat on a sofa."
  {
    var c := "A cat on a sofa.";
    assert forall j :: 0 <= j < |c| ==> c[j] != '\n';
    FirstParagraphBeforeSeparator(c, "Additional detail the user didn't ask for.");
  }
}
