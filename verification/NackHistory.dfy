/** What the receive buffer tells its NACK queue (pkg/buffer/buffer.go, updateStreamState): the
    history of Push and Remove calls against the set of numbers that really arrived. */
module NackHistory {
  import opened SeqNum

  /** A call on the NACK queue, which sees 16-bit numbers only */
  datatype NackCall = Push(sn: uint16) | Remove(sn: uint16)

  /** arrived holds the extended numbers of all packets so far, whatever became of them. */
  datatype Feed = Feed(started: bool, head: int, first: int, arrived: set<int>, calls: seq<NackCall>)

  const SILENT := Feed(false, 0, 0, {}, [])

  /** Push calls for the numbers from a to b, exclusive */
  function Pushes(a: int, b: int): (calls: seq<NackCall>)
    ensures a <= b ==> |calls| == b - a
    decreases b - a
  {
    if a >= b then [] else Pushes(a, b - 1) + [Push(Mod16(b - 1))]
  }

  function Hear(f: Feed, sn: uint16): Feed {
    var e := if f.started then Extend(f.head, sn) else sn;
    if !f.started then
      f.(started := true, head := e, first := e, arrived := {e}, calls := f.calls + [Remove(sn)])
    else
      f.(head := Max(f.head, e), arrived := f.arrived + {e},
         calls := f.calls + [Remove(sn)] + Pushes(f.head + 1, e))
  }

  datatype LastCall = Never | Pushed | Removed

  /** The last call about a 16-bit number */
  function LastAbout(calls: seq<NackCall>, sn: uint16): LastCall {
    if |calls| == 0 then Never
    else
      var c := calls[|calls| - 1];
      if c.sn == sn then (if c.Push? then Pushed else Removed) else LastAbout(calls[..|calls| - 1], sn)
  }

  /** For every number from the first packet on and within half a cycle of the head: the queue
      was last told to request it if it has not arrived, and to forget it if it has. */
  ghost predicate Faithful(f: Feed) {
    f.started ==>
      && f.first <= f.head
      && (forall e :: e in f.arrived ==> e <= f.head)
      && forall e :: f.first <= e <= f.head && e > f.head - HALF16 ==>
           LastAbout(f.calls, Mod16(e)) == if e in f.arrived then Removed else Pushed
  }

  lemma LastAppend(calls: seq<NackCall>, c: NackCall, sn: uint16)
    ensures LastAbout(calls + [c], sn) ==
            if c.sn == sn then (if c.Push? then Pushed else Removed) else LastAbout(calls, sn)
  {
    assert (calls + [c])[..|calls|] == calls;
  }

  /** Pushing a run of numbers makes Push the last call about each and about no other. */
  lemma {:induction false} LastAfterPushes(calls: seq<NackCall>, a: int, b: int, e: int)
    requires a <= b && b - e <= HALF16 && e - a <= HALF16
    ensures LastAbout(calls + Pushes(a, b), Mod16(e)) == if a <= e < b then Pushed else LastAbout(calls, Mod16(e))
    decreases b - a
  {
    hide Mod16;
    if a == b {
      assert calls + Pushes(a, b) == calls;
    } else {
      LastAfterPushes(calls, a, b - 1, e);
      assert calls + Pushes(a, b) == (calls + Pushes(a, b - 1)) + [Push(Mod16(b - 1))];
      LastAppend(calls + Pushes(a, b - 1), Push(Mod16(b - 1)), Mod16(e));
      NearDiffer(b - 1, e);
    }
  }

  lemma NearDiffer(a: int, b: int)
    requires -MOD16 < a - b < MOD16
    ensures Mod16(a) == Mod16(b) <==> a == b
  {
    if Mod16(a) == Mod16(b) {
      SameResidue(a, b);
    }
  }

  /** Each packet keeps the history faithful. */
  lemma HearKeepsFaithful(f: Feed, sn: uint16)
    requires Faithful(f)
    ensures Faithful(Hear(f, sn))
  {
    var f', t := Hear(f, sn), if f.started then Extend(f.head, sn) else sn;
    Mod16Near(sn);
    assert Mod16(t) == sn;
    hide Mod16, Extend, LastAbout, Pushes;
    if f'.started {
      forall e | f'.first <= e <= f'.head && e > f'.head - HALF16
        ensures LastAbout(f'.calls, Mod16(e)) == if e in f'.arrived then Removed else Pushed
      {
        LastAppend(f.calls, Remove(sn), Mod16(e));
        NearDiffer(t, e);
        if f.started {
          var told := f.calls + [Remove(sn)];
          if t > f.head {
            LastAfterPushes(told, f.head + 1, t, e);
          } else {
            NoPushes(told, f.head + 1, t);
          }
        }
      }
    }
  }

  lemma NoPushes(calls: seq<NackCall>, a: int, b: int)
    requires a >= b
    ensures calls + Pushes(a, b) == calls
  {
  }

  function RunFeed(sns: seq<uint16>): Feed {
    if |sns| == 0 then SILENT else Hear(RunFeed(sns[..|sns| - 1]), sns[|sns| - 1])
  }

  /** Over every run, however numbers are reordered, repeated, lost or wrapped. */
  lemma {:induction false} RunFaithful(sns: seq<uint16>)
    ensures Faithful(RunFeed(sns))
  {
    if |sns| > 0 {
      RunFaithful(sns[..|sns| - 1]);
      HearKeepsFaithful(RunFeed(sns[..|sns| - 1]), sns[|sns| - 1]);
    }
  }

  lemma {:induction false} PushesAt(a: int, b: int, i: nat)
    requires a <= b && i < b - a
    ensures Pushes(a, b)[i] == Push(Mod16(a + i))
    decreases b - a
  {
    hide Mod16;
    if i < b - 1 - a {
      PushesAt(a, b - 1, i);
    }
  }

  /** One packet makes one Remove call and then, a gap ahead of the head, gap - 1 Push calls, for the
      numbers it skips and in their order; nothing else is called. */
  lemma CallsPerPacket(f: Feed, sn: uint16) returns (skipped: seq<NackCall>)
    ensures Hear(f, sn).calls == f.calls + [Remove(sn)] + skipped
    ensures var gap := if f.started then Extend(f.head, sn) - f.head else 0;
            |skipped| == if gap > 0 then gap - 1 else 0
    ensures forall i :: 0 <= i < |skipped| ==> skipped[i] == Push(Mod16(f.head + 1 + i))
  {
    hide Mod16, Extend, Pushes;
    var e := Extend(f.head, sn);
    skipped := if f.started then Pushes(f.head + 1, e) else [];
    if f.started && f.head < e {
      forall i | 0 <= i < |skipped| ensures skipped[i] == Push(Mod16(f.head + 1 + i)) {
        PushesAt(f.head + 1, e, i);
      }
    } else if f.started {
      NoPushes([], f.head + 1, e);
      assert [] + skipped == skipped;
    }
  }
}
