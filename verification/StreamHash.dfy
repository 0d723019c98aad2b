/**
 One forward pass over a file: each chunk hashed and handed on as it is read, the
 UTF-8 verdict among the things a chunk is handed to. The answers are those the
 whole buffer gives, however the reading was divided.

 The hasher is this project's own SHA-256; the source takes the same hash from a
 library.
 */
module StreamHash {
  import opened Prelude
  import opened Utf8
  import opened Digest

  /** Whether a stream of bytes handed over in chunks is UTF-8. */
  class Utf8Stream {
    const carry: array<byte>
    var carried: nat
    var invalid: bool
    /** Everything fed so far. */
    ghost var fed: Bytes

    ghost predicate Valid()
      reads this, carry
    {
      && carry.Length == 4 && carried < 4
      && (invalid ==> forall t :: !WellFormed(fed + t))
      && (!invalid ==> carried <= |fed| && Holding(fed[..|fed| - carried], fed[|fed| - carried..], carry[..carried]))
    }

    constructor ()
      ensures Valid() && fed == [] && fresh(carry)
    {
      carry := new byte[4];
      carried, invalid, fed := 0, false, [];
    }

    /** Judge the next chunk of the stream. */
    method Feed(chunk: Bytes)
      requires Valid()
      modifies this, carry
      ensures Valid() && fed == old(fed) + chunk
    {
      hide WellFormed, FromUtf8;
      ghost var before := fed;
      if invalid {
        StaysInvalid(fed, chunk);
        fed := fed + chunk;
        return;
      }
      var rest := chunk;
      if carried > 0 {
        var width := Width(carry[0]);
        assert width == Width(carry[..carried][0]);
        var take := if width - carried < |rest| then width - carried else |rest|;
        ghost var done := fed[..|fed| - carried];
        Grow(rest[..take]);
        rest := rest[take..];
        assert fed == done + carry[..carried];
        assert before + chunk == fed + rest;
        if carried < width {
          assert rest == [];
          return;
        }
        carried := 0;
        Judged(done, carry[..width]);
        if !FromUtf8(carry[..width]).Valid? {
          invalid := true;
          StaysInvalid(fed, rest);
          fed := fed + rest;
          return;
        }
      }
      assert fed[..|fed|] == fed;
      JudgeRest(rest);
      assert fed == before + chunk;
    }

    /** Put more of a carried character in place; the next byte of it was not
        here yet. */
    method Grow(piece: Bytes)
      requires Valid() && !invalid && 0 < carried && carried + |piece| <= Width(carry[0])
      modifies this`carried, this`fed, carry
      ensures fed == old(fed) + piece && carried == old(carried) + |piece|
      ensures carry[..carried] == old(carry[..carried]) + piece
      ensures fed == old(fed[..|fed| - carried]) + carry[..carried]
      ensures carried < Width(carry[0]) ==> Valid()
      ensures carry[0] == old(carry[0]) && 0xC2 <= carry[0] <= 0xF4
      ensures WellFormed(old(fed[..|fed| - carried]))
    {
      hide WellFormed;
      ghost var done, held := fed[..|fed| - carried], carry[..carried];
      assert fed == done + held && carry[0] == held[0];
      forall i | 0 <= i < |piece| {
        carry[carried + i] := piece[i];
      }
      assert carry[..carried + |piece|] == held + piece;
      carried := carried + |piece|;
      fed := fed + piece;
      assert fed == done + carry[..carried];
      assert fed[..|fed| - carried] == done && fed[|fed| - carried..] == carry[..carried];
    }

    /** Judge what follows the last whole character, and carry what it ends
        inside of. */
    method JudgeRest(rest: Bytes)
      requires carry.Length == 4 && carried == 0 && !invalid && WellFormed(fed)
      modifies this, carry
      ensures Valid() && fed == old(fed) + rest
    {
      hide WellFormed, FromUtf8, Width;
      FromUtf8IsWellFormed(rest);
      WellFormedThen(fed, rest);
      match FromUtf8(rest)
      case Valid =>
        fed := fed + rest;
        assert fed[..|fed|] == fed;
      case Invalid(upTo, cutShort) =>
        if !cutShort {
          invalid := true;
          Spoiled(fed, rest);
          fed := fed + rest;
        } else {
          var tail := rest[upTo..];
          BeginsShort(tail);
          forall i | 0 <= i < |tail| {
            carry[i] := tail[i];
          }
          carried := |tail|;
          WellFormedThen(fed, rest[..upTo]);
          ghost var done := fed + rest[..upTo];
          fed := fed + rest;
          assert carry[..carried] == tail;
          assert fed[..|fed| - carried] == done && fed[|fed| - carried..] == tail;
        }
    }

    /** Whether everything fed was UTF-8: the grammar's verdict on the whole. */
    method Finish() returns (r: bool)
      requires Valid()
      ensures r <==> WellFormed(fed)
    {
      hide WellFormed, Width;
      r := !invalid && carried == 0;
      if invalid {
        assert fed + [] == fed;
      } else {
        EndsWhole(fed[..|fed| - carried], carry[..carried]);
        assert fed == fed[..|fed| - carried] + fed[|fed| - carried..];
      }
    }
  }

  lemma StaysInvalid(fed: Bytes, more: Bytes)
    requires forall t :: !WellFormed(fed + t)
    ensures forall t :: !WellFormed(fed + more + t)
  {
    forall t ensures !WellFormed(fed + more + t) {
      assert fed + more + t == fed + (more + t);
    }
  }

  lemma Spoiled(fed: Bytes, rest: Bytes)
    requires WellFormed(fed) && FromUtf8(rest).Invalid? && !FromUtf8(rest).cutShort
    ensures forall t :: !WellFormed(fed + rest + t)
  {
    hide WellFormed, FromUtf8;
    forall t ensures !WellFormed(fed + rest + t) {
      FailureIsFinal(rest, t);
      assert fed + rest + t == fed + (rest + t);
      WellFormedThen(fed, rest + t);
    }
  }

  /** A carried character filled to its width is judged as the whole would be. */
  lemma Judged(done: Bytes, c: Bytes)
    requires WellFormed(done) && c != [] && 0xC2 <= c[0] <= 0xF4 && |c| == Width(c[0])
    ensures FromUtf8(c).Valid? ==> WellFormed(done + c)
    ensures !FromUtf8(c).Valid? ==> forall t :: !WellFormed(done + c + t)
  {
    hide WellFormed, FromUtf8;
    FromUtf8IsWellFormed(c);
    WellFormedThen(done, c);
    forall t | !FromUtf8(c).Valid? ensures !WellFormed(done + c + t) {
      assert done + c + t == done + (c + t);
      WellFormedThen(done, c + t);
      FillsWidth(c, t);
    }
  }

  lemma FillsWidth(c: Bytes, t: Bytes)
    requires c != [] && 0xC2 <= c[0] <= 0xF4 && |c| == Width(c[0])
    ensures WellFormed(c + t) ==> WellFormed(c)
  {
    if WellFormed(c + t) {
      LeadTakesWidth(c + t);
      assert (c + t)[..Width(c[0])] == c;
      CharIsWellFormed(c);
    }
  }

  lemma BeginsShort(tail: Bytes)
    requires Begins(tail)
    ensures tail != [] && 0xC2 <= tail[0] <= 0xF4 && |tail| < Width(tail[0]) <= 4
  {
  }

  lemma EndsWhole(done: Bytes, carry: Bytes)
    requires WellFormed(done)
    requires carry != [] ==> 0xC2 <= carry[0] <= 0xF4 && |carry| < Width(carry[0])
    ensures WellFormed(done + carry) <==> carry == []
  {
    hide WellFormed, Width;
    WellFormedThen(done, carry);
    if carry == [] {
      assert done + carry == done;
    } else if WellFormed(carry) {
      LeadTakesWidth(carry);
    }
  }

  /** What has been fed is well-formed up to the bytes carried, and those start a
      character they do not yet fill. */
  ghost predicate Holding(done: Bytes, rest: Bytes, carry: Bytes) {
    && WellFormed(done) && rest == carry
    && (carry != [] ==> 0xC2 <= carry[0] <= 0xF4 && |carry| < Width(carry[0]))
  }

  // ----- the one streaming loop

  /** What one call to read a file comes back with. A read of nothing is its end. */
  datatype ReadResult = Got(bytes: Bytes) | Interrupted | Failed

  /** A file being read: the results its reads will come back with, in order; once
      they are spent it is at its end. */
  class Reader {
    var coming: seq<ReadResult>

    constructor (coming: seq<ReadResult>)
      ensures this.coming == coming
    {
      this.coming := coming;
    }

    method Read() returns (r: ReadResult)
      modifies this
      ensures old(coming) == [] ==> r == Got([]) && coming == []
      ensures old(coming) != [] ==> r == old(coming)[0] && coming == old(coming)[1..]
    {
      if coming == [] {
        r := Got([]);
      } else {
        r, coming := coming[0], coming[1..];
      }
    }
  }

  /** The bytes a pass reads: up to the first failure or the end, interruptions
      passed over. */
  function Content(coming: seq<ReadResult>): Bytes {
    if coming == [] then []
    else match coming[0]
         case Got(bytes) => if bytes == [] then [] else bytes + Content(coming[1..])
         case Interrupted => Content(coming[1..])
         case Failed => []
  }

  /** Whether a pass comes to the end rather than to a failure. */
  predicate ReachesEnd(coming: seq<ReadResult>) {
    coming == []
    || coming[0] == Got([])
    || (!coming[0].Failed? && ReachesEnd(coming[1..]))
  }

  lemma ContentStep(coming: seq<ReadResult>)
    ensures coming == [] || coming[0] == Got([]) ==> Content(coming) == [] && ReachesEnd(coming)
    ensures coming != [] && coming[0].Failed? ==> !ReachesEnd(coming)
    ensures coming != [] && coming[0].Interrupted? ==>
              Content(coming) == Content(coming[1..]) && ReachesEnd(coming) == ReachesEnd(coming[1..])
    ensures coming != [] && coming[0].Got? && coming[0].bytes != [] ==>
              Content(coming) == coming[0].bytes + Content(coming[1..]) && ReachesEnd(coming) == ReachesEnd(coming[1..])
  {
  }

  /** What is done with a chunk: it is judged, and written to a sink that fails once
      it has taken `room` bytes more, part of a chunk among them. */
  class Each {
    const utf8: Utf8Stream
    var written: Bytes
    const writes: bool
    var room: nat

    constructor (writes: bool, room: nat)
      ensures utf8.Valid() && fresh(utf8) && fresh(utf8.carry) && utf8.fed == []
      ensures written == [] && this.room == room && this.writes == writes
    {
      utf8 := new Utf8Stream();
      written, this.writes, this.room := [], writes, room;
    }

    method Take(chunk: Bytes) returns (ok: bool)
      requires utf8.Valid() && utf8 != (this as object)
      modifies this, utf8, utf8.carry
      ensures utf8.Valid()
      ensures ok <==> !writes || |chunk| <= old(room)
      ensures ok ==> utf8.fed == old(utf8.fed) + chunk
      ensures written == old(written) + (if !writes then [] else if ok then chunk else chunk[..old(room)])
      ensures room == old(room) - (if !writes then 0 else if ok then |chunk| else old(room))
    {
      if writes {
        if |chunk| > room {
          written, room := written + chunk[..room], 0;
          return false;
        }
        written, room := written + chunk, room - |chunk|;
      }
      utf8.Feed(chunk);
      ok := true;
    }
  }

  datatype Passed = Whole(hash: Bytes, len: nat) | Reading | Writing

  /** One forward pass: the hash and the length of everything read. */
  method Streamed(reader: Reader, each: Each) returns (r: Passed)
    requires each.utf8.Valid() && each.utf8.fed == [] && each.written == []
    requires each.utf8 != (each as object)
    modifies reader, each, each.utf8, each.utf8.carry
    ensures each.utf8.Valid()
    ensures r.Whole? ==> ReachesEnd(old(reader.coming)) && each.utf8.fed == Content(old(reader.coming))
    ensures r.Whole? && each.writes ==> each.written == Content(old(reader.coming))
    ensures r.Whole? ==> r.len == |Content(old(reader.coming))|
    ensures r.Whole? && 8 * |Content(old(reader.coming))| < TWO_64 ==>
              r.hash == Fips180.Sha256(Content(old(reader.coming)))
    ensures r.Reading? ==> !ReachesEnd(old(reader.coming))
    ensures r.Writing? ==> each.writes && |Content(old(reader.coming))| > old(each.room)
    ensures r.Whole? <==> ReachesEnd(old(reader.coming))
                          && (each.writes ==> |Content(old(reader.coming))| <= old(each.room))
    ensures each.writes ==> each.written <= Content(old(reader.coming))
    ensures r.Writing? ==> |each.written| == old(each.room)
  {
    hide *;
    var hasher := new Sha256();
    var len := 0;
    ghost var all := Content(reader.coming);
    while true
      invariant hasher.Valid() && fresh(hasher) && fresh(hasher.block) && each.utf8.Valid()
      invariant hasher.absorbed == each.utf8.fed && len == |each.utf8.fed|
      invariant each.utf8.fed + Content(reader.coming) == all
      invariant each.writes ==> each.written == each.utf8.fed && each.room + |each.written| == old(each.room)
      invariant ReachesEnd(reader.coming) <==> ReachesEnd(old(reader.coming))
      decreases |reader.coming|
    {
      ContentStep(reader.coming);
      var read := reader.Read();
      if read.Failed? {
        return Reading;
      }
      if read.Got? && read.bytes == [] {
        break;
      }
      if read.Got? {
        hasher.Update(read.bytes);
        var ok := each.Take(read.bytes);
        if !ok {
          return Writing;
        }
        len := len + |read.bytes|;
      }
    }
    assert each.utf8.fed + [] == each.utf8.fed;
    var hash := hasher.Finish();
    r := Whole(hash, len);
  }

  datatype Checked = Checked(hash: Bytes, len: nat, utf8: bool)

  /** A streamed observation: hash, length and whether the file is UTF-8, each the
      answer the whole buffer gives. */
  method HashedAndChecked(reader: Reader) returns (r: Option<Checked>)
    modifies reader
    ensures r.Some? <==> ReachesEnd(old(reader.coming))
    ensures r.Some? ==> r.value.len == |Content(old(reader.coming))|
                        && (r.value.utf8 <==> WellFormed(Content(old(reader.coming))))
    ensures r.Some? && 8 * r.value.len < TWO_64 ==> r.value.hash == Fips180.Sha256(Content(old(reader.coming)))
  {
    var each := new Each(false, 0);
    var passed := Streamed(reader, each);
    if !passed.Whole? {
      return None;
    }
    var utf8 := each.utf8.Finish();
    r := Some(Checked(passed.hash, passed.len, utf8));
  }

  /** A copy: the hash and length are those of exactly the bytes written. */
  method CopiedAndHashed(reader: Reader, room: nat) returns (r: Passed, written: Bytes)
    modifies reader
    ensures r.Whole? ==> written == Content(old(reader.coming)) && r.len == |written|
    ensures r.Whole? && 8 * r.len < TWO_64 ==> r.hash == Fips180.Sha256(written)
    ensures r.Whole? <==> ReachesEnd(old(reader.coming)) && |Content(old(reader.coming))| <= room
    ensures r.Reading? ==> !ReachesEnd(old(reader.coming))
    ensures r.Writing? ==> |Content(old(reader.coming))| > room && |written| == room
    ensures written <= Content(old(reader.coming))
  {
    var each := new Each(true, room);
    r := Streamed(reader, each);
    written := each.written;
  }
}
