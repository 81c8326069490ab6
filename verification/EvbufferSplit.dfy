/**
 evbuffer_remove_buffer: move a given number of bytes to another evbuffer, relinking whole
 chains and copying only what is needed from the chain where the split falls.
 */
module EvbufferSplit {
  import opened Bytes
  import opened EvbufferCore
  import opened EvbufferAppend
  import opened EvbufferDrain
  import opened EvbufferMove

  /** The chains and their memories. */
  ghost function Objects(chains: seq<Chain>): set<object> {
    if chains == [] then {} else {chains[0], chains[0].buffer} + Objects(chains[1..])
  }

  lemma {:induction false} ObjectsAre(chains: seq<Chain>)
    ensures forall i :: 0 <= i < |chains| ==> chains[i] in Objects(chains) && chains[i].buffer in Objects(chains)
    ensures forall o :: o in Objects(chains) ==>
      exists i :: 0 <= i < |chains| && (o == chains[i] || o == chains[i].buffer)
  {
    if chains != [] {
      ObjectsAre(chains[1..]);
      forall o | o in Objects(chains)
        ensures exists i :: 0 <= i < |chains| && (o == chains[i] || o == chains[i].buffer)
      {
        if o != chains[0] && o != chains[0].buffer {
          var i :| 0 <= i < |chains[1..]| && (o == chains[1..][i] || o == chains[1..][i].buffer);
          assert o == chains[i + 1] || o == chains[i + 1].buffer;
        }
      }
    }
  }

  /** The list `a` followed by the first `k` chains of `b`; the mark is still that of `a`. */
  ghost function Spliced(a: View, b: View, k: nat): View
    requires k <= |b.chains| == |b.bytes|
  {
    View(a.chains + b.chains[..k], a.bytes + b.bytes[..k], a.lwd)
  }

  /** Splitting the list `b` before its chain number `k`. */
  lemma SplitFoot(b: View, fb: set<object>, k: nat)
    requires b.Ok() && b.Within(fb) && k < |b.chains|
    ensures |b.bytes| == |b.chains|
    ensures var moved := Objects(b.chains[..k]); var rest := Dropped(b, k, 0);
      && moved <= fb && rest.Within(fb - moved)
      && (forall i :: 0 <= i < k ==> b.chains[i] in moved && b.chains[i].buffer in moved)
  {
    ObjectsAre(b.chains[..k]);
  }

  lemma SplicedOk(a: View, fa: set<object>, b: View, fb: set<object>, k: nat)
    requires a.Ok() && a.Within(fa) && b.Ok() && b.Within(fb) && fa !! fb && 0 < k < |b.chains|
    ensures |b.bytes| == |b.chains| && |a.bytes| == |a.chains|
    ensures var s := Spliced(a, b, k);
      && |s.bytes| == |s.chains| && s.Distinct() && s.Within(fa + Objects(b.chains[..k]))
      && Flatten(s.bytes) == Flatten(a.bytes) + Flatten(b.bytes[..k])
      && s.Head() == (if a.chains == [] then b.Head() else a.Head())
      && s.Pred(|s.chains|) == b.chains[k - 1]
  {
    hide Flatten;
    SplitFoot(b, fb, k);
    FlattenAppend(a.bytes, b.bytes[..k]);
  }

  /** Two views with the same chains and bytes are on the heap alike. */
  lemma SameOnHeap(v: View, foot: set<object>, w: View, foot': set<object>)
    requires |v.chains| == |v.bytes| && v.Within(foot) && v.OnHeap(foot)
    requires w.chains == v.chains && w.bytes == v.bytes && w.Within(foot')
    ensures w.OnHeap(foot')
  {
  }

  method CutNodes(previous: Chain, ghost j: View, ghost foot: set<object>, ghost m: nat)
    requires |j.bytes| == |j.chains| && j.Distinct() && j.Within(foot) && j.OnHeap(foot)
    requires 0 < m < |j.chains| && previous == j.chains[m - 1]
    modifies previous`next
    ensures View(j.chains[..m], j.bytes[..m], 0).Within(foot) && View(j.chains[m..], j.bytes[m..], 0).Within(foot)
    ensures View(j.chains[..m], j.bytes[..m], 0).OnHeap(foot)
    ensures View(j.chains[m..], j.bytes[m..], 0).OnHeap(foot)
  {
    hide Chain.Holds;
    previous.next := null;
  }

  method SpliceNodes(dst: Evbuffer, pred: Chain?, head: Chain, previous: Chain, ghost a: View, ghost fa: set<object>,
                     ghost b: View, ghost fb: set<object>, ghost k: nat)
    requires a.Ok() && a.Within(fa) && b.Ok() && b.Within(fb) && fa !! fb && dst !in fa && dst !in fb
    requires a.OnHeap(fa) && b.OnHeap(fb) && pred == a.Pred(|a.chains|) && head == b.Head()
    requires |a.chains| == |a.bytes| && 0 < k < |b.chains| == |b.bytes| && previous == b.chains[k - 1]
    requires Spliced(a, b, k).Within(fa + Objects(b.chains[..k]))
    requires Dropped(b, k, 0).Within(fb - Objects(b.chains[..k]))
    modifies dst`first, fa, previous`next
    ensures Spliced(a, b, k).OnHeap(fa + Objects(b.chains[..k]))
    ensures Dropped(b, k, 0).OnHeap(fb - Objects(b.chains[..k]))
    ensures dst.first == if a.chains == [] then head else old(dst.first)
  {
    hide Chain.Holds, Objects, View.OnHeap, View.Distinct, View.Within, View.Pred;
    JoinedDistinct(a, fa, b, fb);
    ghost var j, m := Joined(a, b), |a.chains| + k;
    JoinNodes(dst, pred, head, a, fa, b, fb);
    CutNodes(previous, j, fa + fb, m);
    assert j.chains[..m] == a.chains + b.chains[..k] && j.bytes[..m] == a.bytes + b.bytes[..k];
    assert j.chains[m..] == b.chains[k..] && j.bytes[m..] == Dropped(b, k, 0).bytes;
    SameOnHeap(View(j.chains[..m], j.bytes[..m], 0), fa + fb, Spliced(a, b, k), fa + Objects(b.chains[..k]));
    SameOnHeap(View(j.chains[m..], j.bytes[m..], 0), fa + fb, Dropped(b, k, 0), fb - Objects(b.chains[..k]));
  }

  /** advance_last_with_data: move last_with_datap to the last chain with data; answer how many chains were looked at. */
  method AdvanceLastWithData(buf: Evbuffer, ghost v: View, ghost foot: set<object>) returns (n: nat, ghost lwd: nat)
    requires |v.bytes| == |v.chains| && v.Within(foot) && v.OnHeap(foot) && buf !in foot
    requires buf.first == v.Head() && (v.lwd < |v.chains| || v.lwd == |v.chains| == 0)
    requires buf.lastWithDataPred == v.Pred(v.lwd) && (v.lwd > 0 ==> v.bytes[v.lwd] != [])
    modifies buf`lastWithDataPred
    ensures lwd <= |v.chains| && v.(lwd := lwd).Marked() && buf.lastWithDataPred == v.Pred(lwd)
    ensures v.(lwd := lwd).Within(foot) && v.(lwd := lwd).OnHeap(foot)
    ensures n == if v.chains == [] then 0 else |v.chains| - 1 - v.lwd
  {
    hide View.Distinct, Window;
    n, lwd := 0, v.lwd;
    var mark := buf.lastWithDataPred;
    var pred := mark;
    var chain := if pred == null then buf.first else pred.next;
    if chain == null {
      return;
    }
    ghost var i := v.lwd;
    while chain.next != null
      invariant i < |v.chains| && chain == v.chains[i] && pred == v.Pred(i)
      invariant lwd <= i && mark == v.Pred(lwd) && (lwd > 0 ==> v.bytes[lwd] != [])
      invariant forall j :: lwd < j <= i ==> v.bytes[j] == []
      invariant n == i - v.lwd
      decreases |v.chains| - i
    {
      pred := chain;
      chain := chain.next;
      i := i + 1;
      if chain.off != 0 {
        mark := pred;
        lwd := i;
      }
      n := n + 1;
    }
    buf.lastWithDataPred := mark;
  }

  /** The loop of evbuffer_remove_buffer: the whole chains to move, and the rest to copy. */
  method FindRemove(src: Evbuffer, datlen: nat)
      returns (chain: Chain, previous: Chain, nread: nat, rest: nat, pred: Chain?, ghost k: nat)
    requires src.Shape() && datlen < |src.Contents()|
    ensures k < |src.view.chains| == |src.view.bytes| && chain == src.view.chains[k]
    ensures k > 0 ==> previous == src.view.chains[k - 1]
    ensures nread == |Flatten(src.view.bytes[..k])| && nread + rest == datlen && rest < |src.view.bytes[k]|
    ensures pred == if src.view.lwd <= k then null else src.view.Pred(src.view.lwd)
  {
    ghost var v := src.view;
    FlattenAll(v.bytes);
    chain, previous := src.first, src.first;
    nread, rest, pred, k := 0, datlen, src.lastWithDataPred, 0;
    while chain.off <= rest
      invariant k < |v.chains| && chain == v.chains[k]
      invariant k > 0 ==> previous == v.chains[k - 1]
      invariant nread == |Flatten(v.bytes[..k])| && nread + rest == datlen
      invariant pred == if v.lwd <= k then null else v.Pred(v.lwd)
      decreases |v.chains| - k
    {
      FlattenStep(v.bytes, k);
      FlattenAll(v.bytes);
      nread := nread + chain.off;
      rest := rest - chain.off;
      previous := chain;
      if pred == chain {
        pred := null;
      }
      chain := chain.next;
      k := k + 1;
    }
  }

  /** Move the first `k` chains of src to the end of dst. */
  method MoveChains(src: Evbuffer, dst: Evbuffer, chain: Chain, previous: Chain, nread: nat, srcPred: Chain?, ghost k: nat)
    requires src.Shape() && dst.Shape() && Apart(dst, src)
    requires 0 < k < |src.view.chains| == |src.view.bytes|
    requires chain == src.view.chains[k] && previous == src.view.chains[k - 1] && 0 < |src.view.bytes[k]|
    requires nread == |Flatten(src.view.bytes[..k])|
    requires srcPred == if src.view.lwd <= k then null else src.view.Pred(src.view.lwd)
    modifies dst`first, dst`last, dst`lastWithDataPred, dst`totalLen, dst`view, dst`foot, dst.foot
    modifies src`first, src`last, src`lastWithDataPred, src`totalLen, src`view, src`foot, src.foot
    ensures src.Shape() && dst.Shape() && Apart(dst, src)
    ensures dst.foot + src.foot == old(dst.foot + src.foot)
    ensures src.view == old(Dropped(src.view, k, 0)) && src.first == chain
    ensures nread < |old(src.Contents())| && src.Contents() == old(src.Contents())[nread..]
    ensures dst.Contents() == old(dst.Contents() + src.Contents()[..nread])
  {
    hide Evbuffer.Shape, Evbuffer.ShapeButLast, Evbuffer.Contents, View.Ok, View.Within, View.OnHeap, Chain.Holds;
    hide Flatten, Prefix, Kept, Spliced, Dropped, View.Head, View.Pred, Objects, View.Marked, View.Distinct;
    ShapeParts(src);
    ShapeParts(dst);
    var pred := FreeTrailingEmptyChains(dst);
    ShapeParts(dst);
    ghost var a, fa, b, fb := dst.view, dst.foot, src.view, src.foot;
    ghost var moved := Objects(b.chains[..k]);
    SplitFoot(b, fb, k);
    SplicedOk(a, fa, b, fb, k);
    DroppedOk(b, fb, k, 0);
    FlattenSplit(b.bytes, k);
    assert Flatten(b.bytes)[..nread] == Flatten(b.bytes[..k]);
    SomeHead(src);
    var head := src.first;
    SpliceNodes(dst, pred, head, previous, a, fa, b, fb, k);
    var oldPred := dst.lastWithDataPred;
    ghost var s := Spliced(a, b, k);
    SplicedMark(a, b, k);
    var _, lwd := AdvanceLastWithData(dst, s, fa + moved);
    SetHeader(dst, previous, dst.lastWithDataPred, dst.totalLen + nread, s.(lwd := lwd), fa + moved);
    SplicedShape(dst, s, lwd);
    src.first := chain;
    SetHeader(src, src.last, srcPred, src.totalLen - nread, Dropped(b, k, 0), fb - moved);
    ShapeFrom(src);
  }

  lemma SomeHead(buf: Evbuffer)
    requires buf.Shape() && buf.view.chains != []
    ensures buf.first != null && buf.first == buf.view.chains[0]
  {
  }

  lemma SplicedMark(a: View, b: View, k: nat)
    requires a.Ok() && b.Ok() && 0 < k < |b.chains| == |b.bytes|
    ensures var s := Spliced(a, b, k);
      && |s.chains| == |s.bytes| && s.lwd < |s.chains| && (s.lwd > 0 ==> s.bytes[s.lwd] != [])
      && s.Pred(s.lwd) == a.Pred(a.lwd) && a.lwd <= |a.chains|
  {
  }

  lemma SplicedShape(dst: Evbuffer, s: View, lwd: nat)
    requires |s.chains| == |s.bytes| && s.(lwd := lwd).Marked() && s.Distinct() && dst.view == s.(lwd := lwd)
    requires dst !in dst.foot && s.Within(dst.foot) && dst.view.Within(dst.foot) && dst.view.OnHeap(dst.foot)
    requires dst.first == s.Head() && dst.last == s.Pred(|s.chains|) && lwd <= |s.chains|
    requires dst.lastWithDataPred == s.Pred(lwd) && dst.totalLen == |Flatten(s.bytes)|
    ensures dst.Shape() && dst.Contents() == Flatten(s.bytes)
  {
  }

  /** Whether the split falls in the first chain. */
  lemma FirstOrNot(buf: Evbuffer, k: nat)
    requires buf.Shape() && k < |buf.view.chains|
    ensures buf.view.chains[k] == buf.first <==> k == 0
    ensures |Flatten(buf.view.bytes[..0])| == 0 && |buf.view.bytes| == |buf.view.chains|
    ensures buf.lastWithDataPred == if buf.view.lwd <= 0 then null else buf.view.Pred(buf.view.lwd)
    ensures buf.view.chains[k] in buf.foot
  {
  }

  lemma DroppedHead(v: View, k: nat)
    requires k < |v.chains| == |v.bytes|
    ensures var d := Dropped(v, k, 0);
      |d.chains| == |d.bytes| > 0 && d.chains[0] == v.chains[k] && d.bytes[0] == v.bytes[k]
  {
  }

  /** The relinking part of evbuffer_remove_buffer, when some bytes stay in src. */
  method MoveWhole(src: Evbuffer, dst: Evbuffer, datlen: nat) returns (nread: nat, rest: nat)
    requires src.Valid() && dst.Valid() && Apart(dst, src) && datlen < |src.Contents()|
    modifies src, src.foot, dst, dst.foot
    ensures src.Shape() && src.Reported() && src.Uncounted() + nread == 0 && dst.Valid() && Apart(dst, src)
    ensures dst.foot + src.foot == old(dst.foot + src.foot)
    ensures dst.freezeStart == old(dst.freezeStart) && dst.freezeEnd == old(dst.freezeEnd)
    ensures src.freezeStart == old(src.freezeStart) && src.freezeEnd == old(src.freezeEnd)
    ensures nread + rest == datlen && src.view.bytes != [] && rest < |src.view.bytes[0]|
    ensures src.Contents() == old(src.Contents())[nread..]
    ensures dst.Contents() == old(dst.Contents()) + old(src.Contents())[..nread]
    ensures src.Silent() && dst.Silent(nread)
  {
    hide Evbuffer.Valid, Evbuffer.Shape, Evbuffer.ShapeButLast, Evbuffer.Contents, Evbuffer.Reported;
    hide View.Ok, View.Within, View.OnHeap, Chain.Holds, Flatten, Dropped, View.Pred;
    ValidParts(src);
    ValidParts(dst);
    var chain, previous, pred;
    ghost var k;
    chain, previous, nread, rest, pred, k := FindRemove(src, datlen);
    FirstOrNot(src, k);
    DroppedHead(src.view, k);
    if chain != src.first {
      MoveChains(src, dst, chain, previous, nread, pred, k);
      ShapeParts(dst);
      ShapeParts(src);
      dst.nAddForCb := dst.nAddForCb + nread;
      ValidFrom(dst);
    } else {
      assert dst.Contents() + src.Contents()[..0] == dst.Contents() && src.Contents()[0..] == src.Contents();
    }
  }

  /** The copying part of evbuffer_remove_buffer. */
  method CopyRest(src: Evbuffer, dst: Evbuffer, rest: nat)
    requires src.Shape() && dst.Valid() && Apart(dst, src) && src.view.bytes != [] && rest < |src.view.bytes[0]|
    requires |src.Contents()| + |dst.Contents()| <= SIZE_MAX && !dst.freezeEnd
    modifies src`first, src`last, src`lastWithDataPred, src`totalLen, src`view, src`foot, src.foot, dst, dst.foot
    ensures src.Shape() && dst.Valid() && Apart(dst, src)
    ensures fresh(dst.foot - old(dst.foot)) && src.foot == old(src.foot)
    ensures src.Uncounted() == old(src.Uncounted()) - rest
    ensures dst.freezeStart == old(dst.freezeStart) && dst.freezeEnd == old(dst.freezeEnd)
    ensures rest < |old(src.Contents())| && src.Contents() == old(src.Contents())[rest..]
    ensures dst.Contents() == old(dst.Contents()) + old(src.Contents())[..rest]
    ensures src.Silent() && dst.Told(rest, 0)
  {
    hide Evbuffer.Valid, Evbuffer.Shape, Evbuffer.ShapeButLast, Evbuffer.Contents;
    hide View.Ok, View.Within, View.OnHeap, Chain.Holds, Flatten, Dropped, View.Pred;
    ShapeParts(src);
    FirstOrNot(src, 0);
    NodeAt(src, 0);
    var chain := src.first;
    var data := CopyPart(src, chain, 0, 0, rest, 0);
    ghost var s := src.Contents();
    assert s[0..rest] == s[..rest];
    var added := Add(dst, data);
    FirstOrNot(src, 0);
    DropTo(src, chain, src.lastWithDataPred, 0, rest, rest);
    ShapeParts(src);
  }

  /** evbuffer_remove_buffer, when some bytes stay in src. */
  method RemovePart(src: Evbuffer, dst: Evbuffer, datlen: nat)
    requires src.Valid() && dst.Valid() && Apart(dst, src) && datlen < |src.Contents()|
    requires |src.Contents()| + |dst.Contents()| <= SIZE_MAX && !dst.freezeEnd
    modifies src, src.foot, dst, dst.foot
    ensures src.Valid() && dst.Valid() && Apart(dst, src)
    ensures fresh(dst.foot + src.foot - old(dst.foot + src.foot))
    ensures dst.freezeStart == old(dst.freezeStart) && dst.freezeEnd == old(dst.freezeEnd)
    ensures src.freezeStart == old(src.freezeStart) && src.freezeEnd == old(src.freezeEnd)
    ensures src.Contents() == old(src.Contents())[datlen..]
    ensures dst.Contents() == old(dst.Contents()) + old(src.Contents())[..datlen]
    ensures datlen > 0 ==> dst.Told(datlen, 0, true) && src.Told(0, datlen)
  {
    hide Evbuffer.Valid, Evbuffer.Shape, Evbuffer.Contents, Evbuffer.Reported;
    ghost var s, d := src.Contents(), dst.Contents();
    var nread, rest := MoveWhole(src, dst, datlen);
    MovedParts(src, dst);
    CopyRest(src, dst, rest);
    Settle(src, dst, datlen);
    TakeInTwo(d, s, nread, rest);
  }

  lemma MovedParts(src: Evbuffer, dst: Evbuffer)
    requires src.Shape() && Apart(dst, src)
    ensures src !in src.foot && src.totalLen == |src.Contents()|
    ensures dst != src && dst !in src.foot && src !in dst.foot && dst.foot !! src.foot
  {
  }

  /** The end of evbuffer_remove_buffer: account for what src lost, and tell the callbacks. */
  method Settle(src: Evbuffer, dst: Evbuffer, n: nat)
    requires src.Shape() && src.Reported() && src.Uncounted() == -(n as int) && dst.Valid() && Apart(dst, src)
    modifies src`nAddForCb, src`nDelForCb, src`reports, src`early, src`cbBase
    modifies dst`nAddForCb, dst`nDelForCb, dst`reports, dst`early, dst`cbBase
    ensures src.Valid() && dst.Valid() && src.Told(0, n) && dst.Told(0, 0)
  {
    hide Evbuffer.Valid, Evbuffer.Shape, Evbuffer.Reported, Evbuffer.Uncounted;
    InvokeCallbacks(dst);
    Count(src, 0, n);
  }

  lemma TakeInTwo<T>(d: seq<T>, s: seq<T>, m: nat, n: nat)
    requires m + n <= |s|
    ensures (d + s[..m]) + s[m..][..n] == d + s[..m + n] && s[m..][n..] == s[m + n..]
  {
    assert s[..m] + s[m..][..n] == s[..m + n];
  }

  /** evbuffer_remove_buffer: the count it answers is cut down to a C int. */
  method RemoveBuffer(src: Evbuffer, dst: Evbuffer, datlen: nat) returns (result: int)
    requires src.Valid() && dst.Valid() && (dst == src || Apart(dst, src))
    requires dst != src ==> |src.Contents()| + |dst.Contents()| <= SIZE_MAX
    modifies src, src.foot, dst, dst.foot
    ensures src.Valid() && dst.Valid() && (dst == src || Apart(dst, src))
    ensures fresh(dst.foot + src.foot - old(dst.foot + src.foot))
    ensures dst.freezeStart == old(dst.freezeStart) && dst.freezeEnd == old(dst.freezeEnd)
    ensures src.freezeStart == old(src.freezeStart) && src.freezeEnd == old(src.freezeEnd)
    ensures var moves := datlen > 0 && dst != src && !old(dst.freezeEnd || src.freezeStart);
      var n := if moves then Min(datlen, |old(src.Contents())|) else 0;
      && result == (if datlen > 0 && dst != src && !moves then -1 else ToInt(n))
      && src.Contents() == old(src.Contents())[n..]
      && (dst != src ==> dst.Contents() == old(dst.Contents()) + old(src.Contents())[..n])
      && if n > 0 then dst.Told(n, 0, n < |old(src.Contents())|) && src.Told(0, n) else dst.Silent() && src.Silent()
  {
    hide Evbuffer.Valid, Evbuffer.Shape, Evbuffer.Contents, ToInt;
    ValidParts(src);
    ghost var s, d := src.Contents(), dst.Contents();
    assert s[0..] == s && d + s[..0] == d && s[..|s|] == s && s[|s|..] == [];
    if datlen == 0 || dst == src {
      return ToInt(0);
    }
    if dst.freezeEnd || src.freezeStart {
      return -1;
    }
    if datlen >= src.totalLen {
      var n := src.totalLen;
      var added := AddBuffer(dst, src);
      return ToInt(n);
    }
    RemovePart(src, dst, datlen);
    return ToInt(datlen);
  }
}
