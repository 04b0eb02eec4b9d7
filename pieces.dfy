/**
  Torrent creation in the native wrapper: `set_piece_hashes_fallback`, which
  reads the content one piece at a time and gives each piece's SHA-1 to the
  `lt::create_torrent` object, and `createTorrent`, which drives it.

  SHA-1 itself is the `sha1` parameter, an arbitrary function from bytes to a
  digest. The file system is represented by the content it would deliver
  (`None` where the file cannot be opened), and what `lt::add_files` and the
  `lt::create_torrent` constructor decide about the piece layout is the
  `layout` parameter (`None` where they throw).
 */
module Pieces {
  import opened Wrappers
  import opened Hex

  function Min(a: int, b: int): int
  {
    if a <= b then a else b
  }

  /** The bytes of piece `i`: positions `[i·L, min((i+1)·L, size))`, clipped to the content. */
  function Piece(content: seq<byte>, pieceLength: nat, i: nat): seq<byte>
  {
    var start := i * pieceLength;
    content[Min(start, |content|) .. Min(start + pieceLength, |content|)]
  }

  /** The two exceptions `set_piece_hashes_fallback` throws. */
  datatype HashError = InvalidPieceCount | CannotOpenFile

  /**
    `set_piece_hashes_fallback`: refuse a non-positive piece count, open the
    file, then read up to one piece length per piece and hash what was read.
    Once the stream is exhausted a read delivers nothing, so later pieces hash
    the empty buffer.
   */
  method SetPieceHashesFallback(pieceLength: nat, numPieces: int, file: Option<seq<byte>>,
                                sha1: seq<byte> -> Digest)
    returns (r: Result<seq<Digest>, HashError>)
    ensures numPieces <= 0 ==> r == Failure(InvalidPieceCount)
    ensures numPieces > 0 && file.None? ==> r == Failure(CannotOpenFile)
    ensures numPieces > 0 && file.Some? ==>
              r.Success? && |r.value| == numPieces &&
              forall i :: 0 <= i < numPieces ==> r.value[i] == sha1(Piece(file.value, pieceLength, i))
  {
    if numPieces <= 0 {
      return Failure(InvalidPieceCount);
    }
    if file.None? {
      return Failure(CannotOpenFile);
    }
    var content := file.value;
    var hashes: seq<Digest> := [];
    var pos := 0;  // the stream's read position
    for i := 0 to numPieces
      invariant |hashes| == i
      invariant pos == Min(i * pieceLength, |content|)
      invariant forall j :: 0 <= j < i ==> hashes[j] == sha1(Piece(content, pieceLength, j))
    {
      var read := Min(pieceLength, |content| - pos);  // what `file.gcount()` reports
      var buffer := content[pos .. pos + read];
      hashes := hashes + [sha1(buffer)];
      pos := pos + read;
      assert (i + 1) * pieceLength == i * pieceLength + pieceLength;
    }
    return Success(hashes);
  }

  /** A piece is never longer than the piece length, is full inside the content, and is empty past its end. */
  lemma PieceSize(content: seq<byte>, pieceLength: nat, i: nat)
    ensures |Piece(content, pieceLength, i)| <= pieceLength
    ensures (i + 1) * pieceLength <= |content| ==> |Piece(content, pieceLength, i)| == pieceLength
    ensures i * pieceLength >= |content| ==> Piece(content, pieceLength, i) == []
  {
    assert (i + 1) * pieceLength == i * pieceLength + pieceLength;
  }

  /** The concatenation of the first `n` pieces. */
  function Concat(content: seq<byte>, pieceLength: nat, n: nat): seq<byte>
  {
    if n == 0 then [] else Concat(content, pieceLength, n - 1) + Piece(content, pieceLength, n - 1)
  }

  /** The first `n` pieces, laid end to end, are the first `min(n·L, size)` bytes of the content. */
  lemma {:induction false} PiecesCover(content: seq<byte>, pieceLength: nat, n: nat)
    ensures Concat(content, pieceLength, n) == content[..Min(n * pieceLength, |content|)]
  {
    if n > 0 {
      PiecesCover(content, pieceLength, n - 1);
      assert n * pieceLength == (n - 1) * pieceLength + pieceLength;
      var a := Min((n - 1) * pieceLength, |content|);
      var b := Min(n * pieceLength, |content|);
      assert content[..a] + content[a..b] == content[..b];
    }
  }

  /** What `lt::add_files` and the `lt::create_torrent` constructor settle about the pieces. */
  datatype Layout = Layout(pieceLength: nat, numPieces: int)

  /** What `createTorrent` hands to `ct.generate()`: trackers, piece hashes, creator and comment. */
  datatype Draft = Draft(trackers: seq<string>, pieceHashes: seq<Digest>, creator: string, comment: string)

  /**
    `createTorrent`: a missing input path, a layout the library refuses or a
    piece-hashing failure makes it return false (`None`); otherwise it adds the
    trackers in order (none for a null array), hashes the pieces and stamps the
    creator and the comment. The draft is then bencoded and written out.
   */
  method CreateTorrent(inputExists: bool, layout: Option<Layout>, file: Option<seq<byte>>,
                       trackers: Option<seq<string>>, sha1: seq<byte> -> Digest)
    returns (r: Option<Draft>)
    ensures r.Some? <==> inputExists && layout.Some? && layout.value.numPieces > 0 && file.Some?
    ensures r.Some? ==>
              r.value.trackers == (if trackers.Some? then trackers.value else []) &&
              r.value.creator == "audyn" && r.value.comment == "Generated by Audyn" &&
              |r.value.pieceHashes| == layout.value.numPieces &&
              forall i :: 0 <= i < |r.value.pieceHashes| ==>
                r.value.pieceHashes[i] == sha1(Piece(file.value, layout.value.pieceLength, i))
  {
    var trackerList := if trackers.Some? then trackers.value else [];
    if !inputExists || layout.None? {
      return None;
    }
    var added: seq<string> := [];
    for i := 0 to |trackerList|
      invariant added == trackerList[..i]
    {
      added := added + [trackerList[i]];
    }
    var hashes := SetPieceHashesFallback(layout.value.pieceLength, layout.value.numPieces, file, sha1);
    if hashes.Failure? {
      return None;
    }
    r := Some(Draft(added, hashes.value, "audyn", "Generated by Audyn"));
  }
}
