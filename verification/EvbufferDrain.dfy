/**
 Taking bytes from the front of an evbuffer: evbuffer_drain, evbuffer_copyout and
 evbuffer_remove.
 */
module EvbufferDrain {
  import opened Bytes
  import opened EvbufferCore

  /** The list without its first `k` chains and the first `r` bytes of the next one. */
  ghost function Dropped(view: View, k: nat, r: nat): View
    requires k < |view.chains| == |view.bytes| && r <= |view.bytes[k]|
  {
    View(view.chains[k..], [view.bytes[k][r..]] + view.bytes[k + 1..], if view.lwd <= k then 0 else view.lwd - k)
  }

  lemma DroppedOk(view: View, foot: set<object>, k: nat, r: nat)
    requires view.Ok() && view.Within(foot) && k < |view.chains| && r < |view.bytes[k]|
    ensures k <= view.lwd
    ensures var d := Dropped(view, k, r); var n := |Flatten(view.bytes[..k])| + r;
      && d.Ok() && d.Within(foot)
      && n < |Flatten(view.bytes)| && Flatten(d.bytes) == Flatten(view.bytes)[n..]
      && d.Head() == view.chains[k] && d.Pred(|d.chains|) == view.Pred(|view.chains|)
      && d.Pred(d.lwd) == if view.lwd <= k then null else view.Pred(view.lwd)
  {
    hide Flatten;
    DroppedFlat(view.bytes, k, r);
  }

  lemma DroppedFlat(parts: seq<seq<byte>>, k: nat, r: nat)
    requires k < |parts| && r < |parts[k]|
    ensures var n := |Flatten(parts[..k])| + r;
      n < |Flatten(parts)| && Flatten([parts[k][r..]] + parts[k + 1..]) == Flatten(parts)[n..]
  {
    hide Flatten;
    FlattenAt(parts, k);
    FlattenCons(parts[k][r..], parts[k + 1..]);
  }

  method DropNode(c: Chain, ghost v: View, ghost foot: set<object>, ghost k: nat, r: nat)
    requires |v.bytes| == |v.chains| && v.Distinct() && v.Within(foot) && v.OnHeap(foot)
    requires k < |v.chains| && v.chains[k] == c && r <= |v.bytes[k]| == c.off
    requires Dropped(v, k, r).Within(foot)
    modifies c`misalign, c`off
    ensures Dropped(v, k, r).OnHeap(foot) && c.off == old(c.off) - r
  {
    hide Chain.Holds;
    ShiftWindow(c, v.bytes[k], r);
  }

  method ShiftWindow(c: Chain, ghost b: seq<byte>, r: nat)
    requires c.Holds(b) && r <= |b|
    modifies c`misalign, c`off
    ensures c.Holds(b[r..]) && c.off == old(c.off) - r && c.misalign == old(c.misalign) + r
  {
    c.misalign := c.misalign + r;
    c.off := c.off - r;
  }

  /** Make `c` the first chain, without its first `r` bytes. */
  method DropTo(buf: Evbuffer, c: Chain, pred: Chain?, ghost k: nat, r: nat, len: nat)
    requires buf.Shape() && k < |buf.view.chains| == |buf.view.bytes| && c == buf.view.chains[k]
    requires r < |buf.view.bytes[k]| && len == |Flatten(buf.view.bytes[..k])| + r
    requires pred == if buf.view.lwd <= k then null else buf.view.Pred(buf.view.lwd)
    modifies buf`first, buf`last, buf`lastWithDataPred, buf`totalLen, buf`view, buf`foot, c`misalign, c`off
    ensures buf.Shape() && buf.foot == old(buf.foot)
    ensures len < |old(buf.Contents())| && buf.Contents() == old(buf.Contents())[len..]
  {
    hide *;
    ShapeParts(buf);
    NodeAt(buf, k);
    DroppedOk(buf.view, buf.foot, k, r);
    ghost var d := Dropped(buf.view, k, r);
    DropNode(c, buf.view, buf.foot, k, r);
    buf.first := c;
    SetHeader(buf, buf.last, pred, buf.totalLen - len, d, buf.foot);
    ShapeFrom(buf);
  }

  /** The loop of evbuffer_drain: how far `len` bytes reach, and where last_with_datap is then. */
  method FindDrain(buf: Evbuffer, len: nat) returns (chain: Chain, remaining: nat, pred: Chain?, ghost k: nat)
    requires buf.Shape() && len < |buf.Contents()|
    ensures k < |buf.view.chains| == |buf.view.bytes| && chain == buf.view.chains[k]
    ensures remaining < |buf.view.bytes[k]| && len == |Flatten(buf.view.bytes[..k])| + remaining
    ensures pred == if buf.view.lwd <= k then null else buf.view.Pred(buf.view.lwd)
  {
    ghost var v := buf.view;
    FlattenAll(v.bytes);
    var c := buf.first;
    remaining, pred, k := len, buf.lastWithDataPred, 0;
    while remaining >= c.off
      invariant k < |v.chains| && c == v.chains[k]
      invariant len == |Flatten(v.bytes[..k])| + remaining
      invariant pred == if v.lwd <= k then null else v.Pred(v.lwd)
      decreases |v.chains| - k
    {
      FlattenStep(v.bytes, k);
      FlattenAll(v.bytes);
      var next := c.next;
      remaining := remaining - c.off;
      if c == if pred == null then buf.first else pred.next {
        pred := null;
      }
      if pred == c {
        pred := null;
      }
      k := k + 1;
      c := next;
    }
    chain := c;
  }

  lemma ZeroOk(buf: Evbuffer)
    ensures var v := View([], [], 0);
      && v.Ok() && v.Within(buf.foot) && v.OnHeap(buf.foot) && Flatten(v.bytes) == []
      && v.Head() == null && v.Pred(0) == null
  {
  }

  /** ZERO_CHAIN */
  method ZeroChain(buf: Evbuffer)
    requires buf !in buf.foot
    modifies buf`first, buf`last, buf`lastWithDataPred, buf`totalLen, buf`view, buf`foot
    ensures buf.Shape() && buf.Contents() == [] && buf.foot == old(buf.foot) && buf.view.chains == []
  {
    hide *;
    buf.first := null;
    SetHeader(buf, null, null, 0, View([], [], 0), buf.foot);
    ZeroOk(buf);
    ShapeFrom(buf);
  }

  /** evbuffer_drain */
  method Drain(buf: Evbuffer, len: nat) returns (result: int)
    requires buf.Valid()
    modifies buf, buf.foot
    ensures buf.Valid() && buf.foot == old(buf.foot)
    ensures buf.freezeStart == old(buf.freezeStart) && buf.freezeEnd == old(buf.freezeEnd)
    ensures result == if old(buf.Contents() == [] || !buf.freezeStart) then 0 else -1
    ensures buf.Contents() ==
            if result == 0 then old(buf.Contents())[Min(len, |old(buf.Contents())|)..] else old(buf.Contents())
    ensures if result == 0 && old(buf.Contents()) != [] then buf.Told(0, Min(len, |old(buf.Contents())|)) else buf.Silent()
  {
    hide Evbuffer.Valid, Evbuffer.Shape, Evbuffer.ShapeButLast, Evbuffer.Contents, Evbuffer.Reported;
    hide View.Ok, View.Within, View.OnHeap, Chain.Holds, Flatten;
    ValidParts(buf);
    var oldLen := buf.totalLen;
    if oldLen == 0 {
      return 0;
    }
    if buf.freezeStart {
      return -1;
    }
    if len >= oldLen {
      ZeroChain(buf);
      ShapeParts(buf);
      Count(buf, 0, oldLen);
    } else {
      var chain, remaining, pred, k := FindDrain(buf, len);
      InFoot(buf, k);
      DropTo(buf, chain, pred, k, remaining, len);
      ShapeParts(buf);
      Count(buf, 0, len);
    }
    return 0;
  }

  lemma InFoot(buf: Evbuffer, k: nat)
    requires buf.Shape() && k < |buf.view.chains|
    ensures buf.view.chains[k] in buf.foot
  {
  }

  /**
   evbuffer_copyout_from: read `datlen` bytes from `start` on, or from the beginning, without
   removing them.
   */
  method CopyoutFrom(buf: Evbuffer, start: Option<Ptr>, datlen: nat, ghost k0: nat) returns (n: int, data: seq<byte>)
    requires buf.Valid() && (start.Some? ==> buf.view.At(start.value, k0))
    ensures start.Some? ==> 0 <= start.value.pos <= |buf.Contents()|
    ensures var pos := if start.Some? then start.value.pos else 0;
      var m := Min(datlen, |buf.Contents()| - pos);
      && n == (if start.Some? && datlen > SSIZE_MAX - pos then -1 else if m > 0 && buf.freezeStart then -1 else m)
      && data == if n >= 0 then buf.Contents()[pos..pos + n] else []
  {
    hide Evbuffer.Valid, Evbuffer.Shape, Evbuffer.Contents, View.At, Flatten;
    ValidParts(buf);
    StartAt(buf);
    var p := Ptr(0, buf.first, 0);
    ghost var k := 0;
    if start.Some? {
      AtBounds(buf, start.value, k0);
      p := start.value;
      k := k0;
      if datlen > SSIZE_MAX - p.pos {
        return -1, [];
      }
    }
    var todo := if datlen + p.pos > buf.totalLen then buf.totalLen - p.pos else datlen;
    if todo == 0 {
      return 0, [];
    }
    if buf.freezeStart {
      return -1, [];
    }
    n := todo;
    data := CopyLoop(buf, p.chain, p.posInChain, todo, k, p.pos);
  }

  lemma AtBounds(buf: Evbuffer, p: Ptr, k: nat)
    requires buf.Shape() && buf.view.At(p, k)
    ensures 0 <= p.pos <= |buf.Contents()|
    ensures p.pos < |buf.Contents()| ==> k < |buf.view.chains|
  {
    FlattenSplit(buf.view.bytes, k);
    FlattenAll(buf.view.bytes);
    if k < |buf.view.bytes| {
      FlattenStep(buf.view.bytes, k);
    }
  }

  /** The copying loop of evbuffer_copyout_from. */
  method CopyLoop(buf: Evbuffer, start: Chain?, startPos: nat, datlen: nat, ghost k0: nat, ghost pos: nat)
      returns (data: seq<byte>)
    requires buf.Shape() && buf.view.At(Ptr(pos, start, startPos), k0)
    requires pos + datlen <= |buf.Contents()|
    ensures data == buf.Contents()[pos..pos + datlen]
  {
    hide Flatten, Chain.Holds;
    ghost var v, k := buf.view, k0;
    ghost var s := Flatten(v.bytes);
    var chain, posInChain: nat, todo: nat := start, startPos, datlen;
    data := [];
    FlattenAll(v.bytes);
    FirstHop(buf, k, chain);
    while todo > 0 && todo >= chain.off - posInChain
      invariant k <= |v.chains| && chain == if k < |v.chains| then v.chains[k] else null
      invariant posInChain <= if k < |v.chains| then |v.bytes[k]| else 0
      invariant |data| + todo == datlen
      invariant |Flatten(v.bytes[..k])| + posInChain == pos + |data|
      invariant data == s[pos..pos + |data|]
      invariant chain != null ==> chain.off == |v.bytes[k]|
      decreases |v.chains| - k
    {
      var copylen := chain.off - posInChain;
      var part := CopyPart(buf, chain, k, posInChain, copylen, pos + |data|);
      SliceJoin(s, pos, pos + |data|, pos + |data| + copylen);
      data := data + part;
      todo := todo - copylen;
      chain := chain.next;
      posInChain := 0;
      k := k + 1;
      FirstHop(buf, k, chain);
    }
    if todo > 0 {
      var part := CopyPart(buf, chain, k, posInChain, todo, pos + |data|);
      data := data + part;
    }
  }

  lemma FirstHop(buf: Evbuffer, k: nat, chain: Chain?)
    requires buf.Shape() && k <= |buf.view.chains|
    requires chain == if k < |buf.view.chains| then buf.view.chains[k] else null
    ensures chain != null ==> k < |buf.view.bytes| && chain.off == |buf.view.bytes[k]| && chain.next == buf.view.Next(k)
  {
  }

  /** memcpy of `m` bytes out of chain number `k`, from its byte `i` on. */
  method CopyPart(buf: Evbuffer, c: Chain, ghost k: nat, i: nat, m: nat, ghost p: nat) returns (part: seq<byte>)
    requires buf.Shape() && k < |buf.view.chains| == |buf.view.bytes| && c == buf.view.chains[k]
    requires i + m <= |buf.view.bytes[k]| && p == |Flatten(buf.view.bytes[..k])| + i
    ensures p + m <= |Flatten(buf.view.bytes)| && part == Flatten(buf.view.bytes)[p..p + m] && |part| == m
    ensures |Flatten(buf.view.bytes[..k + 1])| == |Flatten(buf.view.bytes[..k])| + |buf.view.bytes[k]|
  {
    hide *;
    FlattenWindow(buf.view.bytes, k, i, m);
    ShapeParts(buf);
    NodeAt(buf, k);
    part := ReadPart(c, buf.view.bytes[k], i, m);
  }

  method ReadPart(c: Chain, ghost b: seq<byte>, i: nat, m: nat) returns (part: seq<byte>)
    requires c.Holds(b) && i + m <= |b|
    ensures part == b[i..i + m]
  {
    part := c.buffer[c.misalign + i..c.misalign + i + m];
    SliceSlice(c.buffer[..], c.misalign, c.misalign + c.off, i, i + m);
    assert c.buffer[..][c.misalign..c.misalign + c.off] == b;
  }

  lemma StartAt(buf: Evbuffer)
    requires buf.Shape()
    ensures buf.view.At(Ptr(0, buf.first, 0), 0)
  {
    FlattenAll(buf.view.bytes);
  }

  /** evbuffer_remove: the count it answers is cut down to a C int. */
  method Remove(buf: Evbuffer, datlen: nat) returns (result: int, data: seq<byte>)
    requires buf.Valid()
    modifies buf, buf.foot
    ensures buf.Valid() && buf.foot == old(buf.foot)
    ensures buf.freezeStart == old(buf.freezeStart) && buf.freezeEnd == old(buf.freezeEnd)
    ensures data + buf.Contents() == old(buf.Contents())
    ensures |data| == if old(buf.freezeStart) then 0 else Min(datlen, |old(buf.Contents())|)
    ensures if data != [] then buf.Told(0, |data|) else buf.Silent()
    ensures result == if old(buf.freezeStart) && datlen > 0 && old(buf.Contents()) != [] then -1 else ToInt(|data|)
  {
    hide Evbuffer.Valid, Evbuffer.Contents, ToInt;
    var n;
    n, data := CopyoutFrom(buf, None, datlen, 0);
    ghost var s := buf.Contents();
    if n > 0 {
      var drained := Drain(buf, n);
      if drained < 0 {
        n := -1;
      }
    }
    assert |data| > 0 ==> s == s[..|data|] + s[|data|..];
    result := if n < 0 then -1 else ToInt(n);
  }
}
