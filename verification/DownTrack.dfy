/** The forwarding track of pkg/rtc/downtrack.go as the object it is: offsets, gate flags and a
    sequencer, updated packet by packet. */
module Forwarding {
  import opened SeqNum
  import opened ForwardingModel
  import Q = SequencerModel
  import opened SequencerRings
  import opened Wrappers

  class DownTrack {
    const video: bool
    var bound: bool
    var enabled: bool
    var syncRequired: bool
    var started: bool
    var snOffset: uint16
    var tsOffset: uint32
    var lastSN: uint16
    var lastTS: uint32
    const sequencer: Sequencer?
    /** What the write stream took, in order */
    var sent: seq<Output>

    ghost function Repr(): set<object>
    {
      {this} + if sequencer == null then {} else {sequencer, sequencer.slots, sequencer.meta}
    }

    ghost predicate Valid()
      reads Repr()
    {
      (sequencer != null <==> video) && (sequencer != null ==> sequencer.Valid())
    }

    /** The state the track is in */
    ghost function View(): Track
      reads Repr()
    {
      Track(video, bound, enabled, syncRequired, started, snOffset, tsOffset, lastSN, lastTS,
            if sequencer == null then None else Some(sequencer.q), sent)
    }

    constructor Bind(video: bool, maxTrack: int)
      requires maxTrack > 0
      ensures Valid() && View() == Bound(video, maxTrack) && fresh(Repr())
    {
      this.video := video;
      bound, enabled, syncRequired, started := true, true, true, false;
      snOffset, tsOffset, lastSN, lastTS := 0, 0, 0, 0;
      sent := [];
      var s: Sequencer? := null;
      if video {
        s := new Sequencer(maxTrack, MAX_PADDING);
      }
      sequencer := s;
    }

    /** The error is that of an admitted packet; dropping a packet is none. */
    method WriteRTP(p: Source, outcome: Outcome) returns (err: Outcome)
      requires Valid()
      modifies Repr()
      ensures Valid() && View() == Write(old(View()), p, outcome)
      ensures err == if Admits(old(View()), p) then outcome else Sent
    {
      if !enabled || !bound {
        return Sent;
      }
      err := WriteSimpleRTP(p, outcome);
    }

    method WriteSimpleRTP(p: Source, outcome: Outcome) returns (err: Outcome)
      requires Valid() && enabled && bound
      modifies Repr()
      ensures Valid() && View() == Write(old(View()), p, outcome)
      ensures err == if Admits(old(View()), p) then outcome else Sent
    {
      hide Sub16, Sub32, Recorded;
      if syncRequired {
        if video {
          if !p.keyFrame {
            sent := sent + [PliRequest];
            return Sent;
          }
        }
        if lastSN != 0 {
          snOffset := Sub16(Sub16(p.sn, lastSN), 1);
          tsOffset := Sub32(Sub32(p.ts, lastTS), 1);
        }
        syncRequired := false;
      }
      var newSN := Sub16(p.sn, snOffset);
      var newTS := Sub32(p.ts, tsOffset);
      Record(p, newSN, newTS);
      err := Send(Forwarded(p.sn, newSN, newTS), outcome);
    }

    method Record(p: Source, newSN: uint16, newTS: uint32)
      requires Valid()
      modifies Repr()
      ensures Valid() && View() == Recorded(old(View()), p, newSN, newTS)
    {
      hide Q.Push;
      if sequencer != null {
        var _ := sequencer.Push(p.sn, newSN, newTS, 0);
      }
      if !started {
        lastSN := newSN;
        lastTS := newTS;
        started := true;
      }
    }

    /** Rewrites the header and hands the packet to the write stream. */
    method Send(packet: Output, outcome: Outcome) returns (err: Outcome)
      modifies this`sent
      ensures sent == if outcome == Sent then old(sent) + [packet] else old(sent)
      ensures err == outcome
    {
      if outcome == HeaderError {
        return HeaderError;
      }
      if outcome == WriteError {
        return WriteError;
      }
      sent := sent + [packet];
      return Sent;
    }

    method Mute(val: bool)
      requires Valid()
      modifies this
      ensures Valid() && View() == ForwardingModel.Mute(old(View()), val)
    {
      if enabled != val {
        return;
      }
      enabled := !val;
      syncRequired := true;
    }

    method Unbind()
      requires Valid()
      modifies this
      ensures Valid() && View() == ForwardingModel.Unbind(old(View()))
    {
      bound := false;
    }

    method SetRTT(rtt: uint32)
      requires Valid()
      modifies Repr()
      ensures Valid() && View() == ForwardingModel.SetRtt(old(View()), rtt)
    {
      if sequencer != null {
        sequencer.SetRTT(rtt);
      }
    }

    /** Replays the requested packets that are due. */
    method RetransmitPackets(nacks: seq<uint16>, now: uint32, fetch: uint16 -> Fetch)
      requires Valid()
      modifies Repr()
      ensures Valid() && View() == Nack(old(View()), nacks, now, fetch)
    {
      if sequencer == null {
        return;
      }
      hide Q.HandedOut, Q.Requests, Replay;
      ghost var records := RecordsFor(sequencer.q, nacks, now);
      var metas := sequencer.GetPacketsMeta(nacks, now);
      WriteReplay(metas, records, fetch);
    }

    /** Fetches, rewrites and writes packet by packet; stops where the publisher's buffer ends. */
    method WriteReplay(metas: seq<nat>, ghost records: seq<Q.PacketMeta>, fetch: uint16 -> Fetch)
      requires sequencer != null && |metas| == |records|
      requires forall k :: 0 <= k < |metas| ==>
                 metas[k] < sequencer.meta.Length && sequencer.meta[metas[k]] == records[k]
      modifies this`sent
      ensures sent == old(sent) + Replay(records, fetch)
    {
      var i := 0;
      while i < |metas|
        invariant 0 <= i <= |metas|
        invariant sent + Replay(records[i..], fetch) == old(sent) + Replay(records, fetch)
      {
        var meta := sequencer.meta[metas[i]];
        assert records[i..][1..] == records[i + 1..] && records[i..][0] == meta;
        i := i + 1;
        match fetch(meta.sourceSeqNo)
        case EndOfFile =>
          break;
        case Missing =>
        case Malformed =>
        case Read(outcome) =>
          var _ := Send(Resent(meta.sourceSeqNo, meta.targetSeqNo, meta.timestamp), outcome);
      }
    }
  }
}
