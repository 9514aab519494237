/** The greedy splitting of a Telegram message into chunks of at most 4000
    bytes, shared by `sendToTelegram` in CrossoversAlert, VolumesAlert and
    EmasAlert: the trimmed message is cut at every blank line, and the pieces
    are packed in order, each into the open chunk while it fits. */
module Chunking {
  import opened Text

  const Limit: nat := 4000
  const Separator: string := "\n\n"

  /** The header CrossoversAlert and EmasAlert start their message with. */
  const NewAlertsHeader: string := "*New Alerts* \U{F0}\U{9F}\U{93}\U{88}\U{F0}\U{9F}\U{93}\U{89}\n"

  /** The header is 22 bytes long: each emoji is four bytes of UTF-8. */
  lemma NewAlertsHeaderLength()
    ensures |NewAlertsHeader| == 22
  {
  }

  /** A message built with `.=`: the header, then one block per item, the
      blocks supplied by `format` (the `sprintf` with its number formatting). */
  function Compose<T>(header: string, items: seq<T>, format: T -> string): string
    decreases |items|
  {
    if items == [] then header
    else Compose(header, items[..|items| - 1], format) + format(items[|items| - 1])
  }

  /** The open chunk and the chunks already closed. */
  datatype Packing = Packing(chunk: string, chunks: seq<string>)

  /** One iteration of the packing loop. */
  function PackStep(st: Packing, piece: string): Packing {
    if |st.chunk| + |piece| + 2 <= Limit then
      Packing(st.chunk + (if st.chunk == "" then "" else Separator) + piece, st.chunks)
    else
      Packing(piece, st.chunks + [st.chunk])
  }

  /** The state after packing the given pieces from an empty start. */
  function PackAll(pieces: seq<string>): Packing
    decreases |pieces|
  {
    if pieces == [] then Packing("", [])
    else PackStep(PackAll(pieces[..|pieces| - 1]), pieces[|pieces| - 1])
  }

  /** The open chunk is closed at the end unless it is empty. */
  function Finish(st: Packing): seq<string> {
    if st.chunk != "" then st.chunks + [st.chunk] else st.chunks
  }

  /** `explode("\n\n", trim($message))`. */
  function Pieces(message: string): seq<string> {
    Explode(Trim(message), Separator)
  }

  /** The chunks `sendToTelegram` posts, one request each. */
  function Chunks(message: string): seq<string> {
    Finish(PackAll(Pieces(message)))
  }

  /** `sendToTelegram`: pack the pieces of the trimmed message, then close
      the open chunk unless it is empty. */
  method SplitIntoChunks(message: string) returns (chunks: seq<string>)
    ensures chunks == Chunks(message)
  {
    var alerts := Explode(Trim(message), Separator);
    var chunk;
    chunk, chunks := PackPieces(alerts);
    if chunk != "" {
      chunks := chunks + [chunk];
    }
  }

  /** `sendToTelegram`'s packing loop. */
  method PackPieces(alerts: seq<string>) returns (chunk: string, chunks: seq<string>)
    ensures Packing(chunk, chunks) == PackAll(alerts)
  {
    chunk := "";
    chunks := [];
    var i := 0;
    while i < |alerts|
      invariant 0 <= i <= |alerts|
      invariant PackAll(alerts[..i]) == Packing(chunk, chunks)
    {
      assert alerts[..i + 1][..i] == alerts[..i];
      chunk, chunks := AddAlert(chunk, chunks, alerts[i]);
      i := i + 1;
    }
    assert alerts[..i] == alerts;
  }

  /** The body of the packing loop: the alert joins the open chunk while
      it fits, otherwise the open chunk is closed and the alert opens the
      next. */
  method AddAlert(chunk: string, chunks: seq<string>, alert: string)
    returns (chunk': string, chunks': seq<string>)
    ensures Packing(chunk', chunks') == PackStep(Packing(chunk, chunks), alert)
  {
    if |chunk| + |alert| + 2 <= Limit {
      chunk' := chunk + (if chunk == "" then "" else Separator) + alert;
      chunks' := chunks;
    } else {
      chunks' := chunks + [chunk];
      chunk' := alert;
    }
  }

  /** Every chunk, open or closed, fits the limit or is one whole piece. */
  lemma {:induction false} PackAllBounded(pieces: seq<string>)
    ensures var st := PackAll(pieces);
      (|st.chunk| <= Limit || st.chunk in pieces) &&
      forall i :: 0 <= i < |st.chunks| ==> |st.chunks[i]| <= Limit || st.chunks[i] in pieces
    decreases |pieces|
  {
    if pieces != [] {
      var init := pieces[..|pieces| - 1];
      PackAllBounded(init);
      assert forall x :: x in init ==> x in pieces;
    }
  }

  /** A chunk longer than 4000 bytes holds a single piece: any chunk built
      from two or more pieces fits the limit. */
  lemma ChunksBounded(message: string)
    ensures forall i :: 0 <= i < |Chunks(message)| ==>
      |Chunks(message)[i]| <= Limit || Chunks(message)[i] in Pieces(message)
  {
    PackAllBounded(Pieces(message));
  }

  /** The closed chunks only grow, at the end. */
  lemma {:induction false} PackAllExtends(pieces: seq<string>, n: nat)
    requires n <= |pieces|
    ensures PackAll(pieces[..n]).chunks <= PackAll(pieces).chunks
    decreases |pieces| - n
  {
    if n < |pieces| {
      var init := pieces[..|pieces| - 1];
      assert init[..n] == pieces[..n];
      PackAllExtends(init, n);
    } else {
      assert pieces[..n] == pieces;
    }
  }

  /** A first piece too long to fit beside the separator is preceded by an
      empty chunk and then stands alone. */
  lemma LongFirstPiece(message: string)
    requires |Pieces(message)[0]| + 2 > Limit
    ensures |Chunks(message)| >= 2
    ensures Chunks(message)[0] == "" && Chunks(message)[1] == Pieces(message)[0]
  {
    var pieces := Pieces(message);
    LongFirstOf(pieces);
    assert Chunks(message) == Finish(PackAll(pieces));
  }

  /** The same, for any pieces. */
  lemma LongFirstOf(pieces: seq<string>)
    requires pieces != [] && |pieces[0]| + 2 > Limit
    ensures |Finish(PackAll(pieces))| >= 2
    ensures Finish(PackAll(pieces))[0] == "" && Finish(PackAll(pieces))[1] == pieces[0]
  {
    assert PackAll(pieces[..1]) == Packing(pieces[0], [""]) by {
      assert pieces[..1][..0] == [];
    }
    if |pieces| >= 2 {
      assert PackAll(pieces[..2]) == Packing(pieces[1], ["", pieces[0]]) by {
        assert pieces[..2][..1] == pieces[..1];
      }
      PackAllExtends(pieces, 2);
    } else {
      assert pieces[..1] == pieces;
    }
  }

  /** The chunks with a leading empty one dropped. */
  function DropLeadingEmpty(cs: seq<string>): seq<string> {
    if |cs| > 0 && cs[0] == "" then cs[1..] else cs
  }

  lemma DropLeadingEmptySnoc(cs: seq<string>, x: string)
    requires cs != [] || x != ""
    ensures DropLeadingEmpty(cs + [x]) == DropLeadingEmpty(cs) + [x]
  {
    if cs != [] {
      assert (cs + [x])[0] == cs[0];
      if cs[0] == "" {
        assert (cs + [x])[1..] == cs[1..] + [x];
      }
    }
  }

  /** The packing keeps the text of `pieces`: the open chunk is not empty,
      the chunks after a possible leading empty one join to the joined
      pieces, and no closed chunk but the first is empty. */
  predicate KeepsText(pieces: seq<string>, st: Packing) {
    st.chunk != "" &&
    Join(DropLeadingEmpty(st.chunks + [st.chunk]), Separator) == Join(pieces, Separator) &&
    forall i :: 0 < i < |st.chunks| ==> st.chunks[i] != ""
  }

  /** A piece that fits is appended to the open chunk after a blank line. */
  lemma FitKeepsText(pieces: seq<string>, st: Packing, a: string)
    requires pieces != [] && KeepsText(pieces, st)
    requires |st.chunk| + |a| + 2 <= Limit
    ensures KeepsText(pieces + [a], PackStep(st, a))
  {
    var c := st.chunk;
    var e := DropLeadingEmpty(st.chunks);
    DropLeadingEmptySnoc(st.chunks, c);
    DropLeadingEmptySnoc(st.chunks, c + Separator + a);
    JoinSnoc(pieces, a, Separator);
    assert PackStep(st, a) == Packing(c + Separator + a, st.chunks);
    if e == [] {
      assert Join(e + [c], Separator) == c;
    } else {
      JoinSnoc(e, c, Separator);
      JoinSnoc(e, c + Separator + a, Separator);
    }
  }

  /** A piece that does not fit closes the open chunk and opens its own. */
  lemma OverflowKeepsText(pieces: seq<string>, st: Packing, a: string)
    requires pieces != [] && KeepsText(pieces, st) && a != ""
    requires |st.chunk| + |a| + 2 > Limit
    ensures KeepsText(pieces + [a], PackStep(st, a))
  {
    var c := st.chunk;
    var e := DropLeadingEmpty(st.chunks);
    DropLeadingEmptySnoc(st.chunks, c);
    JoinSnoc(pieces, a, Separator);
    assert PackStep(st, a) == Packing(a, st.chunks + [c]);
    DropLeadingEmptySnoc(st.chunks + [c], a);
    JoinSnoc(e + [c], a, Separator);
  }

  /** Packing non-empty pieces loses and reorders nothing: the open and the
      closed chunks, joined at blank lines, are the joined pieces, and only the
      first closed chunk can be empty. */
  lemma {:induction false} PackAllKeepsText(pieces: seq<string>)
    requires pieces != []
    requires forall i :: 0 <= i < |pieces| ==> pieces[i] != ""
    ensures PackAll(pieces).chunk != ""
    ensures Join(DropLeadingEmpty(PackAll(pieces).chunks + [PackAll(pieces).chunk]), Separator)
         == Join(pieces, Separator)
    ensures forall i :: 0 < i < |PackAll(pieces).chunks| ==> PackAll(pieces).chunks[i] != ""
    decreases |pieces|
  {
    var init := pieces[..|pieces| - 1];
    var a := pieces[|pieces| - 1];
    assert pieces == init + [a];
    if init == [] {
      assert PackAll(init) == Packing("", []);
      if |a| + 2 <= Limit {
        assert PackAll(pieces) == Packing(a, []);
      } else {
        assert PackAll(pieces) == Packing(a, [""]);
        assert DropLeadingEmpty(["", a]) == [a];
      }
    } else {
      PackAllKeepsText(init);
      var st := PackAll(init);
      assert KeepsText(init, st);
      assert PackAll(pieces) == PackStep(st, a);
      if |st.chunk| + |a| + 2 <= Limit {
        FitKeepsText(init, st, a);
      } else {
        OverflowKeepsText(init, st, a);
      }
      assert KeepsText(pieces, PackAll(pieces));
    }
  }

  /** Sending the chunks sends the whole trimmed message: when no blank line
      follows another (so no piece is empty), the chunks after a possible
      leading empty one, joined at blank lines, give back the trimmed message,
      and no chunk but the first is empty. */
  lemma ChunksKeepText(message: string)
    requires forall i :: 0 <= i < |Pieces(message)| ==> Pieces(message)[i] != ""
    ensures Join(DropLeadingEmpty(Chunks(message)), Separator) == Trim(message)
    ensures forall i :: 0 < i < |Chunks(message)| ==> Chunks(message)[i] != ""
  {
    var pieces := Pieces(message);
    FinishKeepsText(pieces);
    assert Chunks(message) == Finish(PackAll(pieces));
    JoinExplode(Trim(message), Separator);
  }

  /** The closed chunks of non-empty pieces, a possible leading empty one
      dropped, join to the joined pieces, and no later one is empty. */
  lemma FinishKeepsText(pieces: seq<string>)
    requires pieces != []
    requires forall i :: 0 <= i < |pieces| ==> pieces[i] != ""
    ensures Join(DropLeadingEmpty(Finish(PackAll(pieces))), Separator) == Join(pieces, Separator)
    ensures forall i :: 0 < i < |Finish(PackAll(pieces))| ==> Finish(PackAll(pieces))[i] != ""
  {
    PackAllKeepsText(pieces);
    var st := PackAll(pieces);
    assert Finish(st) == st.chunks + [st.chunk];
  }
}
