/** The receive buffer's stream state (pkg/buffer/buffer.go): the statistics decide what is lost,
    and the NACK queue is told number by number. */
module ReceiveBuffer {
  import opened SeqNum
  import opened StreamModel
  import opened RtpStats
  import opened NackHistory

  /** The numbers of packets */
  function Numbers(ps: seq<Packet>): seq<uint16> {
    seq(|ps|, k requires 0 <= k < |ps| => ps[k].sn)
  }

  class Buffer {
    const rtpStats: RTPStats
    var bound: bool
    var closed: bool
    /** Packets that came before the buffer was bound */
    var pending: seq<Packet>
    /** No queue for streams that did not negotiate NACK */
    var hasNacker: bool
    /** Calls made on the NACK queue, in order */
    var nackCalls: seq<NackCall>

    ghost var feed: Feed

    ghost predicate Valid()
      reads this, rtpStats, rtpStats.snInfos
    {
      && rtpStats.WellFormed()
      && feed.started == rtpStats.m.started
      && (feed.started ==> feed.head == rtpStats.m.head)
      && (rtpStats.m.ended ==> closed && bound)
      && Faithful(feed)
      && nackCalls == (if hasNacker then feed.calls else [])
      && if bound then pending == [] else feed == SILENT && !hasNacker && rtpStats.m == EMPTY
    }

    constructor ()
      ensures Valid() && !bound && !closed && pending == [] && rtpStats.Valid() && rtpStats.m == EMPTY
      ensures fresh(rtpStats) && fresh(rtpStats.snInfos)
    {
      rtpStats := new RTPStats();
      bound, closed, hasNacker := false, false, false;
      pending, nackCalls := [], [];
      feed := SILENT;
    }

    /** Binding hears the packets that waited, in the order they came. With NACK negotiated for a
        redundant audio codec the buffer stays unbound. */
    method Bind(nack: bool, red: bool)
      requires Valid()
      modifies this, rtpStats, rtpStats.snInfos
      ensures Valid() && closed == old(closed)
      ensures bound == (old(bound) || !(nack && red))
      ensures old(bound) || !bound ==>
                && pending == old(pending) && feed == old(feed) && hasNacker == old(hasNacker)
                && rtpStats.m == old(rtpStats.m)
      ensures !old(bound) && bound ==>
                feed == RunFeed(Numbers(old(pending))) && hasNacker == nack && rtpStats.m == Run(old(pending))
    {
      if bound || (nack && red) {
        return;
      }
      hide Faithful, RunFeed, Run, RTPStats.WellFormed, RTPStats.Valid;
      hasNacker := nack;
      HearPending();
      pending := [];
      bound := true;
    }

    method HearPending()
      requires Open() && feed == SILENT && rtpStats.m == EMPTY
      modifies this`nackCalls, this`feed, rtpStats, rtpStats.snInfos
      ensures Open() && feed == RunFeed(Numbers(pending)) && rtpStats.m == Run(pending)
    {
      hide Faithful, Hear, RTPStats.WellFormed, RTPStats.Valid, Receive;
      var i := 0;
      while i < |pending|
        invariant 0 <= i <= |pending| && Open()
        invariant feed == RunFeed(Numbers(pending[..i])) && rtpStats.m == Run(pending[..i])
      {
        assert pending[..i + 1][..i] == pending[..i];
        assert Numbers(pending[..i + 1])[..i] == Numbers(pending[..i]);
        UpdateStreamState(pending[i]);
        i := i + 1;
      }
      assert pending[..i] == pending;
    }

    /** What one packet after the other keeps, bound or being bound */
    ghost predicate Open()
      reads this, rtpStats, rtpStats.snInfos
    {
      && rtpStats.WellFormed() && !rtpStats.m.ended
      && feed.started == rtpStats.m.started
      && (feed.started ==> feed.head == rtpStats.m.head)
      && Faithful(feed)
      && nackCalls == if hasNacker then feed.calls else []
    }

    /** An open buffer takes every packet: into its statistics and history when it is bound, and
        until then into a queue. A closed one takes none. */
    method Write(p: Packet) returns (taken: bool)
      requires Valid()
      modifies this, rtpStats, rtpStats.snInfos
      ensures Valid() && closed == old(closed) && bound == old(bound) && taken == !closed
      ensures pending == if taken && !bound then old(pending) + [p] else old(pending)
      ensures feed == if taken && bound then Hear(old(feed), p.sn) else old(feed)
      ensures rtpStats.m == if taken && bound then Receive(old(rtpStats.m), p) else old(rtpStats.m)
      ensures old(rtpStats.Valid()) && Representable(rtpStats.m) ==> rtpStats.Valid()
    {
      if closed {
        return false;
      }
      hide Faithful, Hear, RTPStats.WellFormed, RTPStats.Valid, Receive, Representable;
      if !bound {
        pending := pending + [p];
        return true;
      }
      UpdateStreamState(p);
      return true;
    }

    method Close()
      requires Valid()
      modifies this`closed, rtpStats`ended, rtpStats`m
      ensures Valid() && closed && feed == old(feed)
      ensures rtpStats.m == if old(closed) || !bound then old(rtpStats.m) else old(rtpStats.m).(ended := true)
      ensures old(rtpStats.Valid()) ==> rtpStats.Valid()
    {
      if closed {
        return;
      }
      hide Faithful, Inv, RTPStats.Valid;
      closed := true;
      if bound {
        rtpStats.Stop();
      }
    }

    /** The history on the queue is that of the feed, which stays faithful to what arrived; it
        does not depend on the loss counters. */
    method UpdateStreamState(p: Packet)
      requires Open()
      modifies this`nackCalls, this`feed, rtpStats, rtpStats.snInfos
      ensures Open() && feed == Hear(old(feed), p.sn)
      ensures rtpStats.m == Receive(old(rtpStats.m), p)
      ensures old(rtpStats.Valid()) && Representable(rtpStats.m) ==> rtpStats.Valid()
    {
      HearKeepsFaithful(feed, p.sn);
      FlowIsGap(rtpStats.m, feed, p);
      hide Faithful, Extend, Mod16, Inv, Receive, FlowOf, RTPStats.Valid, Representable, Hear;
      var flowState := rtpStats.Update(p);
      TellNacker(p.sn, flowState);
      feed := Hear(feed, p.sn);
    }

    /** The calls one packet makes, given the loss it revealed */
    method TellNacker(sn: uint16, flowState: FlowState)
      requires nackCalls == if hasNacker then feed.calls else []
      requires var e := if feed.started then Extend(feed.head, sn) else sn;
               && (flowState.hasLoss <==> feed.started && e > feed.head + 1)
               && (flowState.hasLoss ==>
                     && flowState.lossStartInclusive == Mod16(feed.head + 1)
                     && flowState.lossEndExclusive == Mod16(e) && e - (feed.head + 1) < HALF16)
      modifies this`nackCalls
      ensures nackCalls == if hasNacker then Hear(feed, sn).calls else []
    {
      hide Mod16;
      if hasNacker {
        ghost var from, next := feed.head + 1, Extend(feed.head, sn);
        nackCalls := nackCalls + [Remove(sn)];
        if flowState.hasLoss {
          PushLost(flowState.lossStartInclusive, flowState.lossEndExclusive, from, next);
        } else if feed.started {
          NoPushes(nackCalls, from, next);
        }
      }
    }

    method PushLost(lossStartInclusive: uint16, lossEndExclusive: uint16, ghost from: int, ghost next: int)
      requires from <= next && next - from < HALF16
      requires lossStartInclusive == Mod16(from) && lossEndExclusive == Mod16(next)
      modifies this`nackCalls
      ensures nackCalls == old(nackCalls) + Pushes(from, next)
    {
      hide Mod16, Add16;
      var lost := lossStartInclusive;
      ghost var e := from;
      NoPushes(nackCalls, from, from);
      while lost != lossEndExclusive
        invariant from <= e <= next && lost == Mod16(e)
        invariant nackCalls == old(nackCalls) + Pushes(from, e)
        decreases next - e
      {
        NearDiffer(e, next);
        Mod16Succ(e);
        nackCalls := nackCalls + [Push(lost)];
        lost := Add16(lost, 1);
        e := e + 1;
      }
      NearDiffer(e, next);
    }
  }

  /** The statistics report a loss exactly when numbers were skipped, and its bounds are theirs. */
  lemma FlowIsGap(m: Model, feed: Feed, p: Packet)
    requires Inv(m) && !m.ended && feed.started == m.started && (m.started ==> feed.head == m.head)
    ensures var flow, m', e := FlowOf(m, p.sn), Receive(m, p), ExtOf(m, p.sn);
            && (flow.hasLoss <==> m.started && e > m.head + 1)
            && (flow.hasLoss ==>
                  && flow.lossStartInclusive == Mod16(m.head + 1) && flow.lossEndExclusive == Mod16(e)
                  && e - (m.head + 1) < HALF16)
            && m'.started && !m'.ended
            && Hear(feed, p.sn).started && Hear(feed, p.sn).head == m'.head
  {
    Mod16Near(p.sn);
    hide Mod16;
  }
}
