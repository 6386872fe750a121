/**
 Draining the receiver's framed status records (internal/hosted/transport.go): each
 record is a four-byte big-endian size and that many bytes.  The drain works frame by
 frame with one flag; the lemmas say which streams it accepts, which it calls a protocol
 violation and which a loss of transport, without following the loop.
 */
module StatusDrain {
  import opened Bytes

  const RECORD_MAX: nat := 65536

  datatype Verdict = Success | Protocol | Transport

  datatype Outcome<+R> = Outcome(accepted: seq<R>, verdict: Verdict)

  /** What the validator makes of a record; None is a violation. */
  type Normalize<!R> = bytes -> Option<R>

  function Size(h: bytes): nat
    requires |h| >= 4
  {
    ((h[0] as nat * 256 + h[1] as nat) * 256 + h[2] as nat) * 256 + h[3] as nat
  }

  function Header(n: nat): (h: bytes)
    requires n <= RECORD_MAX
    ensures |h| == 4
  {
    [0, (n / 65536) as byte, (n / 256 % 256) as byte, (n % 256) as byte]
  }

  predicate Legal(n: nat) {
    0 < n <= RECORD_MAX
  }

  // ---- The drain, frame by frame ----

  function Faulted(poisoned: bool, clean: Verdict): Verdict {
    if poisoned then Protocol else clean
  }

  /** `broken` says that the stream ends in a read error and not in its end. */
  function Drain<R>(normalize: Normalize<R>, s: bytes, broken: bool, poisoned: bool): Outcome<R>
    decreases |s|
  {
    if s == [] && !broken then Outcome([], Faulted(poisoned, Success))
    else if |s| < 4 then Outcome([], Faulted(poisoned, Transport))
    else
      var n := Size(s);
      if !Legal(n) then Outcome([], Protocol)
      else if |s| < 4 + n then Outcome([], Faulted(poisoned, Transport))
      else
        match normalize(s[4..4 + n])
        case None => Drain(normalize, s[4 + n..], broken, true)
        case Some(r) => Accept(r, Drain(normalize, s[4 + n..], broken, poisoned))
  }

  function Accept<R>(r: R, o: Outcome<R>): Outcome<R> {
    Outcome([r] + o.accepted, o.verdict)
  }

  function After<R>(accepted: seq<R>, o: Outcome<R>): Outcome<R> {
    Outcome(accepted + o.accepted, o.verdict)
  }

  lemma AfterNothing<R>(o: Outcome<R>)
    ensures After([], o) == o
  {
  }

  lemma AfterEnd<R>(accepted: seq<R>, v: Verdict)
    ensures After(accepted, Outcome([], v)) == Outcome(accepted, v)
  {
  }

  lemma AfterAccept<R>(accepted: seq<R>, r: R, o: Outcome<R>)
    ensures After(accepted, Accept(r, o)) == After(accepted + [r], o)
  {
    Reassociate(accepted, [r], o.accepted);
  }

  datatype Got = Full | Empty | Short

  class Reader {
    var rest: bytes
    const broken: bool

    constructor (s: bytes, fails: bool)
      ensures rest == s && broken == fails
    {
      rest, broken := s, fails;
    }

    /** Reads n bytes, or as many as there are; Empty only at a clean end. */
    method ReadFull(n: nat) returns (b: bytes, got: Got)
      requires n > 0
      modifies this
      ensures got.Full? <==> |old(rest)| >= n
      ensures got.Full? ==> b == old(rest)[..n] && rest == old(rest)[n..]
      ensures got.Empty? <==> old(rest) == [] && !broken
      ensures !got.Full? ==> rest == []
    {
      if |rest| >= n {
        b, got := rest[..n], Full;
        rest := rest[n..];
      } else {
        b, got := rest, if rest == [] && !broken then Empty else Short;
        rest := [];
      }
    }
  }

  /** What a stream starts with. */
  datatype Next = AtEnd | Cut | Impossible | Body(body: bytes)

  function NextFrame(s: bytes, broken: bool): (f: Next)
    ensures f.Body? ==> |s| >= 4 + |f.body|
  {
    if s == [] && !broken then AtEnd
    else if |s| < 4 then Cut
    else if !Legal(Size(s)) then Impossible
    else if |s| < 4 + Size(s) then Cut
    else Body(s[4..4 + Size(s)])
  }

  lemma DrainByFrame<R>(normalize: Normalize<R>, s: bytes, broken: bool, poisoned: bool)
    ensures Drain(normalize, s, broken, poisoned) ==
              match NextFrame(s, broken)
              case AtEnd => Outcome([], Faulted(poisoned, Success))
              case Cut => Outcome([], Faulted(poisoned, Transport))
              case Impossible => Outcome([], Protocol)
              case Body(b) =>
                match normalize(b)
                case None => Drain(normalize, s[4 + |b|..], broken, true)
                case Some(r) => Accept(r, Drain(normalize, s[4 + |b|..], broken, poisoned))
  {
    hide Size;
  }

  method ReadFrame(r: Reader) returns (f: Next)
    modifies r
    ensures f == NextFrame(old(r.rest), r.broken)
    ensures f.Body? ==> r.rest == old(r.rest)[4 + |f.body|..]
  {
    ghost var s := r.rest;
    var header, got := r.ReadFull(4);
    if got.Empty? {
      return AtEnd;
    }
    if !got.Full? {
      return Cut;
    }
    var n := Size(header);
    assert n == Size(s);
    hide Size;
    if n == 0 || n > RECORD_MAX {
      return Impossible;
    }
    var body, got2 := r.ReadFull(n);
    if !got2.Full? {
      return Cut;
    }
    assert body == s[4..4 + n];
    return Body(body);
  }

  method DrainStatusRecords<R>(r: Reader, normalize: Normalize<R>) returns (accepted: seq<R>, verdict: Verdict)
    modifies r
    ensures Outcome(accepted, verdict) == Drain(normalize, old(r.rest), r.broken, false)
  {
    accepted := [];
    var poisoned := false;
    ghost var all := Drain(normalize, r.rest, r.broken, false);
    AfterNothing(all);
    while true
      invariant all == After(accepted, Drain(normalize, r.rest, r.broken, poisoned))
      decreases |r.rest|
    {
      hide Drain, NextFrame, Accept, After;
      DrainByFrame(normalize, r.rest, r.broken, poisoned);
      AfterEnd(accepted, Success);
      AfterEnd(accepted, Protocol);
      AfterEnd(accepted, Transport);
      var f := ReadFrame(r);
      match f {
        case AtEnd =>
          return accepted, if poisoned then Protocol else Success;
        case Cut =>
          return accepted, if poisoned then Protocol else Transport;
        case Impossible =>
          return accepted, Protocol;
        case Body(body) =>
          var record := normalize(body);
          if record.None? {
            poisoned := true;
          } else {
            AfterAccept(accepted, record.value, Drain(normalize, r.rest, r.broken, poisoned));
            accepted := accepted + [record.value];
          }
      }
    }
  }

  // ---- Streams of frames ----

  function Frame(body: bytes): bytes
    requires Legal(|body|)
  {
    Header(|body|) + body
  }

  predicate AllLegal(bodies: seq<bytes>) {
    forall b :: b in bodies ==> Legal(|b|)
  }

  function Frames(bodies: seq<bytes>): bytes
    requires AllLegal(bodies)
  {
    if bodies == [] then [] else Frame(bodies[0]) + Frames(bodies[1..])
  }

  /** The records of the bodies that normalize, in order. */
  function Records<R>(normalize: Normalize<R>, bodies: seq<bytes>): seq<R> {
    if bodies == [] then []
    else (match normalize(bodies[0]) case None => [] case Some(r) => [r]) + Records(normalize, bodies[1..])
  }

  predicate Malformed<R>(normalize: Normalize<R>, bodies: seq<bytes>) {
    exists b :: b in bodies && normalize(b).None?
  }

  predicate BadHeader(s: bytes) {
    |s| >= 4 && !Legal(Size(s))
  }

  /** A prefix of complete frames with a malformed one among them, or before an impossible size. */
  ghost predicate Poisoned<R>(normalize: Normalize<R>, s: bytes) {
    exists bodies, rest :: PoisonedBy(normalize, s, bodies, rest)
  }

  predicate PoisonedBy<R>(normalize: Normalize<R>, s: bytes, bodies: seq<bytes>, rest: bytes) {
    AllLegal(bodies) && s == Frames(bodies) + rest && (Malformed(normalize, bodies) || BadHeader(rest))
  }

  ghost predicate WellFormed<R>(normalize: Normalize<R>, s: bytes, bodies: seq<bytes>) {
    AllLegal(bodies) && s == Frames(bodies) && !Malformed(normalize, bodies)
  }

  lemma SizeOfHeader(n: nat)
    requires n <= RECORD_MAX
    ensures Size(Header(n)) == n
  {
  }

  lemma HeaderOfSize(h: bytes)
    requires |h| == 4 && Size(h) <= RECORD_MAX
    ensures Header(Size(h)) == h
  {
    assert h[0] == 0;
  }

  lemma FrameIs(s: bytes, body: bytes, rest: bytes)
    requires Legal(|body|) && s == Frame(body) + rest
    ensures |s| >= 4 + |body| && Size(s) == |body| && s[4..4 + |body|] == body && s[4 + |body|..] == rest
  {
    SizeOfHeader(|body|);
  }

  lemma FrameThere(s: bytes)
    requires |s| >= 4 && Legal(Size(s)) && |s| >= 4 + Size(s)
    ensures Legal(|s[4..4 + Size(s)]|) && s == Frame(s[4..4 + Size(s)]) + s[4 + Size(s)..]
  {
    HeaderOfSize(s[..4]);
  }

  lemma DrainOne<R>(normalize: Normalize<R>, body: bytes, rest: bytes, broken: bool, poisoned: bool)
    requires Legal(|body|)
    ensures Drain(normalize, Frame(body) + rest, broken, poisoned) ==
              match normalize(body)
              case None => Drain(normalize, rest, broken, true)
              case Some(r) => Accept(r, Drain(normalize, rest, broken, poisoned))
  {
    FrameIs(Frame(body) + rest, body, rest);
    hide Frame, Size;
  }

  lemma MalformedSplit<R>(normalize: Normalize<R>, bodies: seq<bytes>)
    requires bodies != []
    ensures Malformed(normalize, bodies) <==> normalize(bodies[0]).None? || Malformed(normalize, bodies[1..])
  {
    assert forall x :: x in bodies <==> x == bodies[0] || x in bodies[1..];
  }

  /** Complete frames are drained one after another. */
  lemma {:induction false} DrainFrames<R>(normalize: Normalize<R>, bodies: seq<bytes>, rest: bytes, broken: bool, poisoned: bool)
    requires AllLegal(bodies)
    ensures var tail := Drain(normalize, rest, broken, poisoned || Malformed(normalize, bodies));
            Drain(normalize, Frames(bodies) + rest, broken, poisoned)
              == Outcome(Records(normalize, bodies) + tail.accepted, tail.verdict)
    decreases |bodies|
  {
    if bodies == [] {
      assert Frames(bodies) + rest == rest;
    } else {
      var b, bs := bodies[0], bodies[1..];
      Reassociate(Frame(b), Frames(bs), rest);
      DrainOne(normalize, b, Frames(bs) + rest, broken, poisoned);
      MalformedSplit(normalize, bodies);
      DrainFrames(normalize, bs, rest, broken, poisoned || normalize(b).None?);
      hide Drain, Frame, Malformed;
      if normalize(b).Some? {
        Reassociate([normalize(b).value], Records(normalize, bs),
                    Drain(normalize, rest, broken, poisoned || Malformed(normalize, bs)).accepted);
      } else {
        assert [] + Records(normalize, bs) == Records(normalize, bs);
      }
    }
  }

  /** Where a stream stops being complete frames. */
  lemma {:induction false} Split(s: bytes) returns (bodies: seq<bytes>, rest: bytes)
    ensures AllLegal(bodies) && s == Frames(bodies) + rest
    ensures |rest| < 4 || BadHeader(rest) || |rest| < 4 + Size(rest)
    decreases |s|
  {
    if |s| < 4 || BadHeader(s) || |s| < 4 + Size(s) {
      bodies, rest := [], s;
    } else {
      FrameThere(s);
      var b := s[4..4 + Size(s)];
      var bs, r := Split(s[4 + Size(s)..]);
      bodies, rest := [b] + bs, r;
      assert bodies[1..] == bs;
      assert s == Frame(b) + (Frames(bs) + r);
    }
  }

  /** The drain is a protocol violation exactly on a poisoned stream, however the stream ends. */
  lemma ProtocolExactly<R>(normalize: Normalize<R>, s: bytes, broken: bool)
    ensures Drain(normalize, s, broken, false).verdict == Protocol <==> Poisoned(normalize, s)
  {
    var bodies, rest := Split(s);
    DrainFrames(normalize, bodies, rest, broken, false);
    DrainStuck(normalize, rest, broken, Malformed(normalize, bodies));
    if Poisoned(normalize, s) {
      var bs, r :| PoisonedBy(normalize, s, bs, r);
      DrainFrames(normalize, bs, r, broken, false);
      PoisonStays(normalize, r, broken);
      DrainStuck(normalize, r, broken, false);
    } else {
      assert !PoisonedBy(normalize, s, bodies, rest);
    }
  }

  /** Where no complete frame starts, the flag and the header decide. */
  lemma DrainStuck<R>(normalize: Normalize<R>, s: bytes, broken: bool, poisoned: bool)
    ensures BadHeader(s) ==> Drain(normalize, s, broken, poisoned).verdict == Protocol
    ensures (|s| < 4 || |s| < 4 + Size(s)) && !BadHeader(s) ==>
              Drain(normalize, s, broken, poisoned) == Outcome([], Faulted(poisoned, if s == [] && !broken then Success else Transport))
  {
    hide Size;
  }

  lemma {:induction false} PoisonStays<R>(normalize: Normalize<R>, s: bytes, broken: bool)
    ensures Drain(normalize, s, broken, true).verdict == Protocol
    decreases |s|
  {
    if |s| >= 4 && Legal(Size(s)) && |s| >= 4 + Size(s) {
      PoisonStays(normalize, s[4 + Size(s)..], broken);
    }
  }

  /** Nothing that follows takes a poisoned prefix back. */
  lemma PoisonIsForGood<R>(normalize: Normalize<R>, s: bytes, more: bytes, broken: bool)
    requires Poisoned(normalize, s)
    ensures Drain(normalize, s + more, broken, false).verdict == Protocol
  {
    var bodies, rest :| PoisonedBy(normalize, s, bodies, rest);
    Reassociate(Frames(bodies), rest, more);
    assert BadHeader(rest) ==> BadHeader(rest + more);
    assert PoisonedBy(normalize, s + more, bodies, rest + more);
    ProtocolExactly(normalize, s + more, broken);
  }

  /** Success exactly on a cleanly ended sequence of well-formed frames; the records are theirs, in order. */
  lemma SuccessExactly<R>(normalize: Normalize<R>, s: bytes, broken: bool)
    ensures Drain(normalize, s, broken, false).verdict == Success
            <==> !broken && exists bodies :: WellFormed(normalize, s, bodies)
    ensures forall bodies :: !broken && WellFormed(normalize, s, bodies)
              ==> Drain(normalize, s, broken, false).accepted == Records(normalize, bodies) && |Records(normalize, bodies)| == |bodies|
  {
    var bodies, rest := Split(s);
    DrainFrames(normalize, bodies, rest, broken, false);
    PoisonStays(normalize, rest, broken);
    if Drain(normalize, s, broken, false).verdict == Success {
      assert Frames(bodies) + [] == Frames(bodies);
      assert WellFormed(normalize, s, bodies);
    }
    forall bs | !broken && WellFormed(normalize, s, bs)
      ensures Drain(normalize, s, broken, false) == Outcome(Records(normalize, bs), Success) && |Records(normalize, bs)| == |bs|
    {
      assert Frames(bs) + [] == s;
      DrainFrames(normalize, bs, [], broken, false);
      RecordEach(normalize, bs);
    }
  }

  lemma {:induction false} RecordEach<R>(normalize: Normalize<R>, bodies: seq<bytes>)
    requires !Malformed(normalize, bodies)
    ensures |Records(normalize, bodies)| == |bodies|
    ensures forall i :: 0 <= i < |bodies| ==> normalize(bodies[i]) == Some(Records(normalize, bodies)[i])
    decreases |bodies|
  {
    if bodies != [] {
      assert bodies[0] in bodies && forall x :: x in bodies[1..] ==> x in bodies;
      RecordEach(normalize, bodies[1..]);
    }
  }

  /** A loss of transport is a stream cut short, or failing to read, with nothing malformed before. */
  lemma TransportExactly<R>(normalize: Normalize<R>, s: bytes, broken: bool)
    ensures Drain(normalize, s, broken, false).verdict == Transport
            <==> !Poisoned(normalize, s) && (broken || !exists bodies :: WellFormed(normalize, s, bodies))
  {
    ProtocolExactly(normalize, s, broken);
    SuccessExactly(normalize, s, broken);
  }
}
