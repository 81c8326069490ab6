/**
 Paired bufferevents as they work: a transfer runs the callbacks of both buffers, the reader's
 watermark callback suspends or resumes it, and resuming may start another transfer.
 */
module PairEnds {
  import opened Bytes
  import opened Suspension
  import opened PairChannel

  /** enum bufferevent_flush_mode */
  datatype FlushMode = Normal | Flushed | Finished

  /** BEV_EVENT_EOF with BEV_EVENT_READING and BEV_EVENT_WRITING: which directions of the partner have ended. */
  datatype Eof = Eof(reading: bool, writing: bool)

  class PairEnd {
    var input: seq<byte>
    var output: seq<byte>
    var inputEndFrozen: bool
    var outputStartFrozen: bool
    var readOn: bool
    var writeOn: bool
    var readSuspended: set<Reason>
    var writeSuspended: set<Reason>
    var high: nat
    var watermarkCallback: bool
    var partner: PairEnd?

    /** bufferevent_pair_elt_new */
    constructor ()
      ensures partner == null && Configured() && inputEndFrozen && outputStartFrozen
      ensures ChannelFrom(this, this) == Channel([], true, {}, [], false, {}, 0)
    {
      input, output := [], [];
      inputEndFrozen, outputStartFrozen := true, true;
      readOn, writeOn := false, true;
      readSuspended, writeSuspended := {}, {};
      high := 0;
      watermarkCallback := false;
      partner := null;
    }

    predicate Configured()
      reads this
    {
      watermarkCallback <==> high != 0
    }

    /** This is one end of a live pair. */
    ghost predicate Linked()
      reads this, partner
    {
      partner != null && partner != this && partner.partner == this && Configured() && partner.Configured()
    }

    /** The direction this end writes, and the one it reads. */
    ghost function Outgoing(): Channel
      requires partner != null
      reads this, partner
    {
      ChannelFrom(this, partner)
    }

    ghost function Incoming(): Channel
      requires partner != null
      reads this, partner
    {
      ChannelFrom(partner, this)
    }

    ghost function Pending(): nat
      requires partner != null
      reads this, partner
    {
      |output| + |partner.output|
    }

    /** The pair is still linked, and what was frozen is frozen again. */
    twostate predicate Steady(p: PairEnd)
      reads this, p
    {
      && partner == p && p.partner == this && p != this && Configured() && p.Configured()
      && (old(inputEndFrozen) ==> inputEndFrozen) && (old(outputStartFrozen) ==> outputStartFrozen)
      && (old(p.inputEndFrozen) ==> p.inputEndFrozen) && (old(p.outputStartFrozen) ==> p.outputStartFrozen)
    }

    /** be_pair_wants_to_talk */
    predicate WantsToTalk(dst: PairEnd)
      reads this, dst
    {
      writeOn && dst.readOn && dst.readSuspended == {} && |output| != 0
    }

    /** bufferevent_suspend_read_ (disabling one end of a pair only stops timers) */
    method SuspendRead(what: Reason)
      modifies this`readSuspended
      ensures readSuspended == old(readSuspended) + {what}
    {
      readSuspended := readSuspended + {what};
    }

    /** bufferevent_unsuspend_read_ */
    method UnsuspendRead(what: Reason)
      requires Linked()
      modifies this, partner
      ensures Steady(old(partner)) && Outgoing() == old(Outgoing()) && Incoming() == Resumed(old(Incoming()), what)
      decreases Pending(), 3
    {
      readSuspended := readSuspended - {what};
      if readSuspended == {} && readOn {
        PairEnable(true, false);
      }
    }

    /** bufferevent_inbuf_wm_cb */
    method WatermarkChanged()
      requires Linked()
      modifies this, partner
      ensures Steady(old(partner)) && Outgoing() == old(Outgoing()) && Incoming() == Watched(old(Incoming()))
      decreases Pending(), 4
    {
      if |input| >= high {
        SuspendRead(SuspendWm);
      } else {
        UnsuspendRead(SuspendWm);
      }
    }

    /** The callbacks of the input buffer. */
    method InputChanged()
      requires Linked()
      modifies this, partner
      ensures Steady(old(partner)) && Outgoing() == old(Outgoing())
      ensures Incoming() == if high == 0 then old(Incoming()) else Watched(old(Incoming()))
      decreases Pending(), 5
    {
      if watermarkCallback {
        WatermarkChanged();
      }
    }

    /** be_pair_outbuf_cb */
    method OutputChanged(nAdded: nat, nDeleted: nat)
      requires Linked()
      modifies this, partner
      ensures Steady(old(partner)) && Incoming() == old(Incoming())
      ensures Outgoing() == if nAdded > nDeleted then Settled(old(Outgoing())) else old(Outgoing())
      decreases Pending(), 2
    {
      if nAdded > nDeleted {
        if WantsToTalk(partner) {
          Transfer(false);
        }
      }
    }

    /** evbuffer_remove_buffer or evbuffer_add_buffer from this output to the partner's input, with their callbacks. */
    method MoveOut(n: nat)
      requires Linked() && n <= |output| && !outputStartFrozen && !partner.inputEndFrozen
      modifies this, partner
      ensures Steady(old(partner)) && Incoming() == old(Incoming())
      ensures var c := old(Outgoing());
        var d := c.(input := c.input + c.output[..n], output := c.output[n..]);
        Outgoing() == if n == 0 then c else if c.high == 0 then d else Watched(d)
      decreases Pending(), 0
    {
      if n == 0 {
        return;
      }
      partner.input := partner.input + output[..n];
      output := output[n..];
      OutputChanged(0, n);
      partner.InputChanged();
    }

    /** be_pair_transfer from this end to its partner */
    method Transfer(ignoreWm: bool)
      requires Linked()
      modifies this, partner
      ensures Steady(old(partner)) && Incoming() == old(Incoming())
      ensures Outgoing() == Transferred(old(Outgoing()), ignoreWm)
      ensures outputStartFrozen && partner.inputEndFrozen
      decreases Pending(), 1
    {
      outputStartFrozen := false;
      partner.inputEndFrozen := false;
      MovedIsWatched(Outgoing(), ignoreWm);
      if partner.high != 0 {
        var dstSize := |partner.input|;
        if dstSize < partner.high {
          var n := partner.high - dstSize;
          MoveOut(if n >= |output| then |output| else n);
        } else {
          if ignoreWm {
            MoveOut(|output|);
          }
        }
      } else {
        MoveOut(|output|);
      }
      outputStartFrozen := true;
      partner.inputEndFrozen := true;
    }

    /** be_pair_enable */
    method PairEnable(read: bool, write: bool)
      requires Linked()
      modifies this, partner
      ensures Steady(old(partner))
      ensures Incoming() == if read then Settled(old(Incoming())) else old(Incoming())
      ensures Outgoing() == if write then Settled(old(Outgoing())) else old(Outgoing())
      decreases Pending(), 2
    {
      if read && partner.WantsToTalk(this) {
        partner.Transfer(false);
      }
      if write && WantsToTalk(partner) {
        Transfer(false);
      }
    }

    /** bufferevent_write */
    method WriteData(data: seq<byte>)
      requires Linked()
      modifies this, partner
      ensures Steady(old(partner)) && Incoming() == old(Incoming()) && Outgoing() == Step(old(Outgoing()), Write(data))
    {
      if data != [] {
        output := output + data;
        OutputChanged(|data|, 0);
      }
    }

    /** bufferevent_read */
    method ReadData(n: nat) returns (data: seq<byte>)
      requires Linked()
      modifies this, partner
      ensures Steady(old(partner)) && Outgoing() == old(Outgoing()) && Incoming() == Step(old(Incoming()), Read(n))
      ensures data == Taken(old(Incoming()), Read(n))
      ensures data <= old(input) && |data| == if n <= |old(input)| then n else |old(input)|
    {
      var m := Min(n, |input|);
      data := input[..m];
      if m > 0 {
        input := input[m..];
        InputChanged();
      }
    }

    /** bufferevent_enable */
    method Enable(read: bool, write: bool)
      requires Linked()
      modifies this, partner
      ensures Steady(old(partner))
      ensures Incoming() == if read then Step(old(Incoming()), EnableRead) else old(Incoming())
      ensures Outgoing() == if write then Step(old(Outgoing()), EnableWrite) else old(Outgoing())
    {
      hide Settled;
      var implRead := read && readSuspended == {};
      var implWrite := write && writeSuspended == {};
      readOn := readOn || read;
      writeOn := writeOn || write;
      QuietIfSuspended(Incoming());
      if implRead || implWrite {
        PairEnable(implRead, implWrite);
      }
    }

    /** bufferevent_disable */
    method Disable(read: bool, write: bool)
      requires Linked()
      modifies this
      ensures Steady(old(partner))
      ensures Incoming() == if read then Step(old(Incoming()), DisableRead) else old(Incoming())
      ensures Outgoing() == if write then Step(old(Outgoing()), DisableWrite) else old(Outgoing())
    {
      readOn := readOn && !read;
      writeOn := writeOn && !write;
    }

    /** bufferevent_setwatermark for reading (low watermarks only gate user callbacks) */
    method SetWatermark(highmark: nat)
      requires Linked()
      modifies this, partner
      ensures Steady(old(partner)) && Outgoing() == old(Outgoing()) && Incoming() == Step(old(Incoming()), SetHigh(highmark))
    {
      high := highmark;
      if highmark != 0 {
        watermarkCallback := true;
        if |input| >= highmark {
          SuspendRead(SuspendWm);
        } else if |input| < highmark {
          UnsuspendRead(SuspendWm);
        }
      } else {
        watermarkCallback := false;
        UnsuspendRead(SuspendWm);
      }
    }

    /** bufferevent_suspend_write_ */
    method SuspendWriting(what: Reason)
      requires Linked()
      modifies this
      ensures Steady(old(partner)) && Incoming() == old(Incoming()) && Outgoing() == Step(old(Outgoing()), SuspendWrite(what))
    {
      writeSuspended := writeSuspended + {what};
    }

    /** bufferevent_unsuspend_write_ */
    method UnsuspendWriting(what: Reason)
      requires Linked()
      modifies this, partner
      ensures Steady(old(partner)) && Incoming() == old(Incoming()) && Outgoing() == Step(old(Outgoing()), UnsuspendWrite(what))
    {
      hide Transferred;
      writeSuspended := writeSuspended - {what};
      if writeSuspended == {} && writeOn {
        PairEnable(false, true);
      }
    }

    /** be_pair_flush; `told` is the event that the partner's event callback is told, if any. */
    method FlushPair(read: bool, write: bool, mode: FlushMode) returns (result: int, told: Option<Eof>)
      requires partner != null ==> Linked()
      modifies this, partner
      ensures result == if old(partner) == null then -1 else 0
      ensures told == if old(partner) != null && mode == Finished then Some(Eof(write, read)) else None
      ensures old(partner) == null ==> unchanged(this)
      ensures old(partner) != null ==>
        && Steady(old(partner))
        && Incoming() == (if read && mode != Normal then Step(old(Incoming()), Flush) else old(Incoming()))
        && Outgoing() == (if write && mode != Normal then Step(old(Outgoing()), Flush) else old(Outgoing()))
    {
      if partner == null {
        return -1, None;
      }
      if mode == Normal {
        return 0, None;
      }
      if read {
        partner.Transfer(true);
      }
      if write {
        Transfer(true);
      }
      if mode == Finished {
        return 0, Some(Eof(write, read));
      }
      return 0, None;
    }
  }

  /** bufferevent_pair_new */
  method PairNew() returns (a: PairEnd, b: PairEnd)
    ensures fresh(a) && fresh(b) && a.Linked() && a.partner == b && a.inputEndFrozen && b.inputEndFrozen
    ensures a.Outgoing() == a.Incoming() == Initial() && a.outputStartFrozen && b.outputStartFrozen
  {
    a := new PairEnd();
    b := new PairEnd();
    a.partner := b;
    b.partner := a;
  }

  /** A new pair whose reader has a high watermark of four bytes takes in four of ten, and then of two more none. */
  method FillsToWatermark(data: seq<byte>, more: seq<byte>) returns (a: PairEnd, b: PairEnd)
    requires |data| == 10 && |more| == 2
    ensures b.input == data[..4] && a.output == data[4..] + more
  {
    a, b := PairNew();
    b.Enable(true, false);
    b.SetWatermark(4);
    a.WriteData(data);
    ghost var once := a.Outgoing();
    assert once.input == data[..4] && once.output == data[4..] && once.readSuspended == {SuspendWm};
    a.WriteData(more);
  }

  ghost function ChannelFrom(w: PairEnd, r: PairEnd): Channel
    reads w, r
  {
    Channel(w.output, w.writeOn, w.writeSuspended, r.input, r.readOn, r.readSuspended, r.high)
  }

  lemma QuietIfSuspended(c: Channel)
    ensures c.readSuspended != {} ==> Settled(c) == c
  {
  }

  /** A transfer fills the reader or empties the writer, so the callbacks never find more to transfer. */
  lemma MovedIsWatched(c: Channel, ignoreWm: bool)
    ensures var n := Room(c, ignoreWm);
      var d := c.(input := c.input + c.output[..n], output := c.output[n..]);
      Transferred(c, ignoreWm) == if n == 0 then c else if c.high == 0 then d else Watched(d)
  {
  }
}
