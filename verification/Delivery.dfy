/** Delivering one of the datagrams a machine emits: the bytes are decoded, dispatched and
    handled exactly as the message they were rendered from. */
module Delivery {
  import opened ByteOrder
  import opened Wrappers
  import opened Protocol
  import opened CoreSpec
  import Wire

  function HandleReneg(c: Core, path: u32, r: Reneg): (s: Step)
    ensures s.out.Ok? && Encodable(s)
  {
    match r
    case NoReneg => Step(c, Ok(NOTHING))
    case Propose(id, p) => HandleProposal(c, path, id, p)
    case Ack(id, accepted) => HandleAck(c, id, accepted)
  }

  function AnswerPull(c: Core, path: u32, start: u64, end: u64): (s: Step)
    ensures Encodable(s)
  {
    var replies := RangeReplies(c, start, end);
    if replies.Err? then Step(c, Err(replies.error))
    else Step(c, Ok(Out(SendAll(path, replies.value), [], [])))
  }

  function TakeWhole(c: Core, id: u64, payload: Bytes): Step {
    if id in c.receivedIds then Step(c, Ok(NOTHING)) else Accept(c, id, payload)
  }

  /** What a message does before any signal it carries. */
  function Handle(c: Core, now: nat, path: u32, m: Msg): Step {
    match m
    case Hello => HandleClientHello(c, now, path)
    case HelloReply => HandleServerHello(c, now, path)
    case HelloDone => HandleHelloAck(c, now)
    case Goodbye => Step(c.(state := Lost), Ok(Out([], [Disconnected], [])))
    case Status(_, _, reneg) => HandleReneg(c, path, reneg)
    case Pull(start, end, _, _) =>
      if c.state == Established then AnswerPull(c, path, start, end) else Step(c, Ok(NOTHING))
    case Whole(id, payload, _, _) => if c.state == Established then TakeWhole(c, id, payload) else Step(c, Ok(NOTHING))
    case Part(id, index, total, chunk, _, _) =>
      if c.state == Established then AddFragment(c, id, index, total, chunk) else Step(c, Ok(NOTHING))
  }

  predicate CarriesSignal(m: Msg) {
    m.Status? || m.Pull? || m.Whole? || m.Part?
  }

  function Signal(c: Core, now: nat, path: u32, m: Msg): Step {
    if CarriesSignal(m) then
      HandleMsrSignal(c, now, path, m.nextPending, if m.Status? then ControlMsrFrame else PiggybackTlv)
    else Step(c, Ok(NOTHING))
  }

  function OnMsg(c: Core, now: nat, path: u32, m: Msg): Step {
    var s := Handle(c, now, path, m);
    if s.out.Err? then s else After(s.out.value, Signal(s.core, now, path, m))
  }

  lemma TlvsOfReneg(c: Core, path: u32, r: Reneg)
    ensures HandleTlvs(c, path, RenegTlvs(r)) == HandleReneg(c, path, r)
  {
    hide HandleProposal, HandleAck;
    var tlvs := RenegTlvs(r);
    if tlvs != [] {
      assert tlvs[1..] == [];
      var s := HandleTlv(c, path, tlvs[0]);
      assert s == HandleReneg(c, path, r) by {
        if r.Ack? {
          assert DecodeAckTlv(tlvs[0]) == Some((r.proposalId, r.accepted));
        } else {
          assert DecodeProposalTlv(tlvs[0]) == Some((r.proposalId, r.proposal));
        }
      }
      RenegSucceeds(c, path, r);
      PlusNothing(s);
    }
  }

  lemma RenegSucceeds(c: Core, path: u32, r: Reneg)
    ensures HandleReneg(c, path, r).out.Ok?
  {
  }

  lemma PlusNothing(s: Step)
    requires s.out.Ok?
    ensures After(s.out.value, Step(s.core, Ok(NOTHING))) == s
  {
    AfterNothing(s);
  }

  lemma StatusAsFrame(c: Core, now: nat, path: u32, m: Msg)
    requires m.Status?
    ensures OnFrame(c, now, path, ToFrame(c.cid, m)) == OnMsg(c, now, path, m)
  {
    hide HandleTlvs, HandleMsrSignal, HandleReneg;
    FieldsOfFrame(c.cid, m);
    TlvsOfReneg(c, path, m.reneg);
    RenegSucceeds(c, path, m.reneg);
    var s := HandleReneg(c, path, m.reneg);
    PlusNothing(After(s.out.value, HandleMsrSignal(s.core, now, path, m.nextPending, ControlMsrFrame)));
  }

  lemma FrameAsMsg(c: Core, now: nat, path: u32, m: Msg)
    requires WellFormed(m)
    ensures OnFrame(c, now, path, ToFrame(c.cid, m)) == OnMsg(c, now, path, m)
  {
    hide HandleMsrSignal, HandleTlvs, RangeReplies, Accept, AddFragment, Tlvs, Body;
    FieldsOfFrame(c.cid, m);
    if m.Status? {
      StatusAsFrame(c, now, path, m);
    } else {
      var f := ToFrame(c.cid, m);
      assert Dispatch(c, now, path, f) == Handle(c, now, path, m);
      var d := Handle(c, now, path, m).core;
      assert Piggyback(d, now, path, f) == Signal(d, now, path, m);
    }
  }

  /** The bytes of a message act as the message. */
  lemma DeliverMsg(c: Core, now: nat, path: u32, m: Msg)
    requires WellFormed(m)
    ensures OnDatagram(c, now, path, Render(c.cid, m)) == OnMsg(Arrive(c, now, path), now, path, m)
  {
    hide OnFrame, OnMsg, Wire.Encode, Wire.Decode, ToFrame;
    FrameAsMsg(Arrive(c, now, path), now, path, m);
    assert ToFrame(c.cid, m).cid == c.cid by {
      CidOfFrame(c.cid, m);
    }
  }

  lemma CidOfFrame(cid: u64, m: Msg)
    ensures ToFrame(cid, m).cid == cid
  {
  }
}
