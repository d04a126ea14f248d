/** The sliding window that looks for the end of mail data (section 4.1.1.4 of RFC 5321) across chunks of
    any sizes. */
module SmtpWindow {
  const END: string := "\r\n.\r\n"

  function Min(a: nat, b: nat): nat { if a < b then a else b }

  /** The last `n` characters. */
  function Last(s: string, n: nat): (r: string)
    requires n <= |s|
    ensures |r| == n
  {
    s[|s| - n..]
  }

  /** The window after one more chunk. */
  function Slide(term: string, chunk: string): string {
    var pick := Min(|chunk|, 5);
    term[Min(|term|, pick)..] + Last(chunk, pick)
  }

  function Ends(term: string): bool { |term| >= 5 && term[..5] == END }

  function Window(chunks: seq<string>): string {
    if chunks == [] then "" else Slide(Window(chunks[..|chunks| - 1]), chunks[|chunks| - 1])
  }

  function Stream(chunks: seq<string>): string {
    if chunks == [] then "" else Stream(chunks[..|chunks| - 1]) + chunks[|chunks| - 1]
  }

  /** The largest chunk size so far, counted up to 5. */
  function Widest(chunks: seq<string>): (w: nat)
    ensures w <= 5
    ensures w == 5 <==> exists i :: 0 <= i < |chunks| && |chunks[i]| >= 5
  {
    if chunks == [] then 0
    else
      var w, p := Widest(chunks[..|chunks| - 1]), Min(|chunks[|chunks| - 1]|, 5);
      assert forall i :: 0 <= i < |chunks| - 1 ==> chunks[i] == chunks[..|chunks| - 1][i];
      if w < p then p else w
  }

  /** Whatever the chunks, the window is the end of the whole stream, as long as the widest of them. */
  lemma {:induction false} WindowIsSuffix(chunks: seq<string>)
    ensures Widest(chunks) <= |Stream(chunks)|
    ensures Window(chunks) == Last(Stream(chunks), Widest(chunks))
  {
    if chunks != [] {
      var before, chunk := chunks[..|chunks| - 1], chunks[|chunks| - 1];
      WindowIsSuffix(before);
      SlideSuffix(Stream(before), Widest(before), chunk);
    }
  }

  lemma SlideSuffix(s: string, w: nat, chunk: string)
    requires w <= |s| && w <= 5
    ensures var p := Min(|chunk|, 5);
            var m := if w < p then p else w;
            m <= |s + chunk| && Slide(Last(s, w), chunk) == Last(s + chunk, m)
  {
    var p := Min(|chunk|, 5);
    if w <= p {
      assert Last(s, w)[w..] == "";
      assert Last(s + chunk, p) == Last(chunk, p);
    } else {
      assert chunk == Last(chunk, p);
      assert Last(s + chunk, w) == Last(s, w)[p..] + chunk;
    }
  }

  /** The end is reported exactly when some chunk so far had five characters or more and everything
      received so far ends with the terminator. */
  lemma EndReportedIff(chunks: seq<string>)
    ensures Ends(Window(chunks)) <==>
              (exists i :: 0 <= i < |chunks| && |chunks[i]| >= 5)
              && |Stream(chunks)| >= 5 && Last(Stream(chunks), 5) == END
  {
    WindowIsSuffix(chunks);
  }

  /** A terminator that comes only in small chunks is missed. */
  lemma SmallChunksMissed()
    ensures var chunks := ["\r\n", ".", "\r\n"];
            Stream(chunks) == END && !Ends(Window(chunks))
  {
    hide Window, Widest, Ends, Last, Stream;
    var chunks := ["\r\n", ".", "\r\n"];
    assert chunks == ([] + ["\r\n"] + ["."]) + ["\r\n"];
    StreamSnoc([] + ["\r\n"] + ["."], "\r\n");
    StreamSnoc([] + ["\r\n"], ".");
    StreamSnoc([], "\r\n");
    StreamNone();
    assert "\r\n" + "." + "\r\n" == END;
    EndReportedIff(chunks);
  }

  lemma StreamNone()
    ensures Stream([]) == ""
  {}

  lemma StreamSnoc(chunks: seq<string>, chunk: string)
    ensures Stream(chunks + [chunk]) == Stream(chunks) + chunk
  {
    assert (chunks + [chunk])[..|chunks|] == chunks;
  }
}
