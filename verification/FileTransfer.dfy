/**
 Whole files of a remote server, read and written in pieces
 (apps/api/app/core/remote_files.py, `read_all` and `write_all`). Any call can fail to
 reach the plugin, be refused, or be carried out with its answer lost.
 */
module FileTransfer {
  import opened Wrappers

  type Byte = bv8
  type Bytes = seq<Byte>
  type FilePath = string

  const CHUNK: nat := 1024 * 1024
  const MAX_FILE: nat := 300 * 1024 * 1024

  /** One write job; size and digest of the whole file go with the final piece. */
  datatype Piece = Piece(offset: nat, data: Bytes, last: bool)

  function Min(a: nat, b: nat): nat {
    if a < b then a else b
  }

  /** The pieces the file is sent in, from `offset` on. */
  function Pieces(data: Bytes, offset: nat): seq<Piece>
    requires offset <= |data|
    decreases |data| - offset
  {
    var end := Min(offset + CHUNK, |data|);
    var piece := Piece(offset, data[offset..end], end >= |data|);
    if piece.last then [piece] else [piece] + Pieces(data, end)
  }

  /** How many pieces a file of `n` bytes takes. */
  function PieceCount(n: nat): nat {
    if n == 0 then 1 else (n + CHUNK - 1) / CHUNK
  }

  function Joined(ps: seq<Piece>): Bytes {
    if ps == [] then [] else ps[0].data + Joined(ps[1..])
  }

  /** A full division: taking one chunk away takes one piece away. */
  lemma OnePieceLess(n: nat)
    requires n > CHUNK
    ensures PieceCount(n) == 1 + PieceCount(n - CHUNK)
  {
  }

  /**
   Put together the pieces are the file; there are as many as full and started chunks,
   and one for the empty file; each starts where the one before ends; only the last
   one is final.
   */
  lemma {:induction false} PiecesAreTheFile(data: Bytes, offset: nat)
    requires offset <= |data|
    ensures Joined(Pieces(data, offset)) == data[offset..]
    ensures |Pieces(data, offset)| == PieceCount(|data| - offset)
    ensures forall i :: 0 <= i < |Pieces(data, offset)| ==>
              var p := Pieces(data, offset)[i];
              && p.offset == offset + i * 1048576 && |p.data| <= 1048576
              && (p.last <==> i == |Pieces(data, offset)| - 1)
    decreases |data| - offset
  {
    var end := Min(offset + CHUNK, |data|);
    var ps := Pieces(data, offset);
    if end < |data| {
      PiecesAreTheFile(data, end);
      OnePieceLess(|data| - offset);
      assert ps[1..] == Pieces(data, end);
      assert data[offset..] == data[offset..end] + data[end..];
      forall i | 0 <= i < |ps|
        ensures ps[i].offset == offset + i * CHUNK && |ps[i].data| <= CHUNK && (ps[i].last <==> i == |ps| - 1)
      {
        if i > 0 {
          assert ps[i] == Pieces(data, end)[i - 1];
        }
      }
    } else {
      assert ps[1..] == [];
    }
  }

  /** The piece of the file from `offset` on. */
  function PieceAt(data: Bytes, offset: nat): Piece
    requires offset <= |data|
  {
    var end := Min(offset + CHUNK, |data|);
    Piece(offset, data[offset..end], end >= |data|)
  }

  /** The pieces of a file one by one. */
  lemma {:induction false} PieceIs(data: Bytes, offset: nat, i: nat)
    requires offset <= |data| && i < |Pieces(data, offset)|
    ensures offset + i * CHUNK <= |data| && Pieces(data, offset)[i] == PieceAt(data, offset + i * CHUNK)
    decreases i
  {
    PiecesAreTheFile(data, offset);
    if i > 0 {
      var end := offset + |PieceAt(data, offset).data|;
      assert Pieces(data, offset)[1..] == Pieces(data, end);
      PieceIs(data, end, i - 1);
    }
  }

  /** The pieces before `offset` have been sent, and it is the turn of the one that starts there. */
  ghost predicate SentUpTo(all: seq<Piece>, sent: seq<Piece>, offset: nat) {
    |sent| < |all| && sent == all[..|sent|] && offset == |sent| * CHUNK
  }

  lemma SendOne(data: Bytes, sent: seq<Piece>, offset: nat)
    requires SentUpTo(Pieces(data, 0), sent, offset)
    ensures offset <= |data| && PieceAt(data, offset) == Pieces(data, 0)[|sent|]
    ensures var p, all := PieceAt(data, offset), Pieces(data, 0);
            && (p.last <==> |sent| == |all| - 1) && sent + [p] == all[..|sent| + 1]
            && (!p.last ==> |p.data| == CHUNK)
  {
    PieceIs(data, 0, |sent|);
    PiecesAreTheFile(data, 0);
  }

  // ----- the plugin -----

  /** The files of the server and the part files of writes under way. */
  datatype Store = Store(files: map<FilePath, Bytes>, parts: map<FilePath, Bytes>)

  /**
   What the plugin does with a piece: a part file grows from offset 0 on, and replaces
   the target only with the final piece, if size and digest are right. None: refused.
   */
  function Landed(st: Store, path: FilePath, p: Piece, size: nat, digest: int, hash: Bytes -> int): Option<Store> {
    var part := if p.offset == 0 then [] else if path in st.parts then st.parts[path] else [];
    if |part| != p.offset then None
    else
      var grown := part + p.data;
      if !p.last then Some(st.(parts := st.parts[path := grown]))
      else if |grown| == size && hash(grown) == digest then
        Some(Store(st.files[path := grown], st.parts - {path}))
      else None
  }

  /** The next piece of a file is taken in, and the last one puts the file in place. */
  lemma Lands(st: Store, path: FilePath, data: Bytes, offset: nat, hash: Bytes -> int)
    requires offset <= |data| && (offset > 0 ==> path in st.parts && st.parts[path] == data[..offset])
    ensures var p := PieceAt(data, offset);
            Landed(st, path, p, |data|, hash(data), hash)
            == Some(if !p.last then st.(parts := st.parts[path := data[..offset + |p.data|]])
                    else Store(st.files[path := data], st.parts - {path}))
  {
    var p := PieceAt(data, offset);
    assert data[..offset] + p.data == data[..offset + |p.data|];
    assert data[..|data|] == data;
  }

  datatype WriteEnd = Written | WriteTooBig | WriteFailed

  datatype ReadEnd = Read(data: Bytes) | ReadTooBig | ReadFailed

  /** What becomes of a call: it does not reach the plugin, its answer is lost, or it is answered. */
  datatype Fate = Unreached | Unanswered | Answered

  class RemoteServer {
    const hash: Bytes -> int
    /** Of each call: what becomes of it, and if it reads, how much it gives and whether it tells the end. */
    const fate: nat -> Fate
    const gives: nat -> nat
    const tellsEnd: nat -> bool
    var store: Store
    var calls: nat

    constructor (hash: Bytes -> int, fate: nat -> Fate, gives: nat -> nat, tellsEnd: nat -> bool, store: Store)
      ensures this.hash == hash && this.fate == fate && this.gives == gives && this.tellsEnd == tellsEnd
      ensures this.store == store && calls == 0
    {
      this.hash, this.fate, this.gives, this.tellsEnd := hash, fate, gives, tellsEnd;
      this.store, calls := store, 0;
    }

    /** One write job through the queue. A refusal is an answer, but not one that it was done. */
    method CallWrite(path: FilePath, p: Piece, size: nat, digest: int) returns (answered: bool)
      modifies this
      ensures calls == old(calls) + 1
      ensures var after := Landed(old(store), path, p, size, digest, hash);
              && (answered <==> after.Some? && fate(old(calls)) == Answered)
              && store == (if after.Some? && fate(old(calls)) != Unreached then after.value else old(store))
    {
      var after := Landed(store, path, p, size, digest, hash);
      answered := after.Some? && fate(calls) == Answered;
      if after.Some? && fate(calls) != Unreached {
        store := after.value;
      }
      calls := calls + 1;
    }

    /** The piece of the file from `offset` on, sent once what is before it has landed. */
    method SendPiece(path: FilePath, data: Bytes, offset: nat, digest: int) returns (answered: bool, p: Piece)
      requires offset <= |data| && digest == hash(data)
      requires offset > 0 ==> path in store.parts && store.parts[path] == data[..offset]
      modifies this
      ensures calls == old(calls) + 1 && (answered <==> fate(old(calls)) == Answered)
      ensures p == PieceAt(data, offset)
      ensures answered && !p.last ==> path in store.parts && store.parts[path] == data[..offset + |p.data|]
      ensures answered && p.last ==> path !in store.parts
      ensures store.files
              == if p.last && fate(old(calls)) != Unreached then old(store).files[path := data] else old(store).files
    {
      var piece := data[offset..Min(offset + CHUNK, |data|)];
      var final := offset + |piece| >= |data|;
      p := Piece(offset, piece, final);
      Lands(store, path, data, offset, hash);
      answered := CallWrite(path, p, |data|, digest);
    }

    /** One read job: some bytes from `offset` on, none only at the end; the end is never told too early. */
    method CallRead(path: FilePath, offset: nat, length: nat) returns (r: Option<(Bytes, bool)>)
      requires length > 0
      modifies this`calls
      ensures calls == old(calls) + 1
      ensures r.Some?
              <==> fate(old(calls)) == Answered && path in store.files && offset <= |store.files[path]|
      ensures r.Some? ==> (var (piece, eof), file := r.value, store.files[path];
                           && offset + |piece| <= |file| && piece == file[offset..offset + |piece|]
                           && |piece| <= length
                           && (piece == [] || eof ==> offset + |piece| == |file|))
    {
      var call := calls;
      calls := calls + 1;
      if fate(call) != Answered || path !in store.files || offset > |store.files[path]| {
        return None;
      }
      var file := store.files[path];
      var end := offset + if 0 < gives(call) <= length then gives(call) else length;
      end := if end > |file| then |file| else end;
      r := Some((file[offset..end], tellsEnd(call) && end == |file|));
    }

    /**
     Writes a whole file; `sent` are the pieces of the calls made, `seen` the files after
     each. It is written exactly if it is not too big and every call is answered. Whatever
     goes wrong on the way, the target is as it was, unless it was the answer to the final
     piece that got lost; then it is the new file.
     */
    method WriteAll(path: FilePath, data: Bytes)
        returns (end: WriteEnd, ghost sent: seq<Piece>, ghost seen: seq<map<FilePath, Bytes>>)
      modifies this
      ensures end == WriteTooBig <==> |data| > 314572800
      ensures end == WriteTooBig ==> store == old(store) && sent == []
      ensures end == Written
              <==> |data| <= 314572800
                   && forall n :: old(calls) <= n < old(calls) + |Pieces(data, 0)| ==> fate(n) == Answered
      ensures end == Written ==> store.files == old(store).files[path := data] && path !in store.parts
      ensures end == Written ==> sent == Pieces(data, 0)
      ensures calls == old(calls) + |sent|
      ensures end == WriteFailed ==>
                && sent != [] && sent <= Pieces(data, 0) && fate(calls - 1) != Answered
                && store.files
                   == if sent[|sent| - 1].last && fate(calls - 1) == Unanswered then old(store).files[path := data]
                      else old(store).files
      ensures |seen| == |sent| && forall i :: 0 <= i < |seen| && !sent[i].last ==> seen[i] == old(store).files
    {
      if |data| > MAX_FILE {
        return WriteTooBig, [], [];
      }
      var done;
      done, sent, seen := SendAll(path, data, hash(data));
      end := if done then Written else WriteFailed;
    }

    /** The loop of `WriteAll`. */
    method SendAll(path: FilePath, data: Bytes, digest: int)
        returns (done: bool, ghost sent: seq<Piece>, ghost seen: seq<map<FilePath, Bytes>>)
      requires digest == hash(data)
      modifies this
      ensures calls == old(calls) + |sent| && sent != [] && sent <= Pieces(data, 0)
      ensures forall n :: old(calls) <= n < calls - 1 ==> fate(n) == Answered
      ensures done <==> fate(calls - 1) == Answered
      ensures done ==> sent == Pieces(data, 0) && sent[|sent| - 1].last && path !in store.parts
      ensures store.files
              == if sent[|sent| - 1].last && fate(calls - 1) != Unreached then old(store).files[path := data]
                 else old(store).files
      ensures |seen| == |sent| && seen[|seen| - 1] == store.files
      ensures forall i :: 0 <= i < |seen| - 1 ==> seen[i] == old(store).files
    {
      sent, seen := [], [];
      var offset: nat := 0;
      ghost var files0, all := store.files, Pieces(data, 0);
      while true
        invariant SentUpTo(all, sent, offset)
        invariant offset <= |data|
        invariant store.files == files0
        invariant offset > 0 ==> path in store.parts && store.parts[path] == data[..offset]
        invariant calls == old(calls) + |sent| && forall n :: old(calls) <= n < calls ==> fate(n) == Answered
        invariant |seen| == |sent| && forall i :: 0 <= i < |seen| ==> seen[i] == files0
        decreases |data| - offset
      {
        SendOne(data, sent, offset);
        var answered, p := SendPiece(path, data, offset, digest);
        sent, seen := sent + [p], seen + [store.files];
        if !answered {
          return false, sent, seen;
        }
        offset := offset + |p.data|;
        if p.last {
          return true, sent, seen;
        }
      }
    }

    /**
     Reads a whole file: exactly its bytes, unless it is larger than the limit or a call
     fails. It need not be told where the end is, and only a last call may have failed.
     */
    method ReadAll(path: FilePath, limit: nat) returns (end: ReadEnd)
      modifies this`calls
      ensures end.Read? ==> path in store.files && end.data == store.files[path] && |end.data| <= limit
      ensures end.ReadTooBig? ==> path in store.files && |store.files[path]| > limit
      ensures calls > old(calls) && forall n :: old(calls) <= n < calls - 1 ==> fate(n) == Answered
      ensures end.ReadFailed? <==> path !in store.files || fate(calls - 1) != Answered
    {
      var out: Bytes := [];
      var offset := 0;
      ghost var size := if path in store.files then |store.files[path]| else 0;
      while true
        invariant offset == |out| <= size && |out| <= limit
        invariant path in store.files ==> out == store.files[path][..offset]
        invariant calls >= old(calls) && forall n :: old(calls) <= n < calls ==> fate(n) == Answered
        invariant path !in store.files ==> calls == old(calls)
        decreases size - offset
      {
        var r := CallRead(path, offset, CHUNK);
        if r.None? {
          return ReadFailed;
        }
        var (piece, eof) := r.value;
        out := out + piece;
        assert out == store.files[path][..offset + |piece|];
        if |out| > limit {
          return ReadTooBig;
        }
        offset := offset + |piece|;
        if eof || piece == [] {
          assert store.files[path][..offset] == store.files[path];
          return Read(out);
        }
      }
    }

    /** What was written is what is read, for every content up to the size limit; calls that are answered do both. */
    method WriteThenRead(path: FilePath, data: Bytes) returns (written: WriteEnd, back: ReadEnd)
      modifies this
      ensures written == Written && !back.ReadFailed? ==> back == Read(data)
      ensures |data| <= 314572800 && (forall n :: fate(n) == Answered) ==> written == Written && back == Read(data)
    {
      ghost var sent, seen;
      written, sent, seen := WriteAll(path, data);
      back := ReadAll(path, MAX_FILE);
    }
  }
}
