/**
 Looking for bytes in an evbuffer: evbuffer_ptr_set, evbuffer_search_range and the searches
 for a line end. What they find does not depend on how the bytes are split into chains.
 */
module EvbufferSearch {
  import opened Bytes
  import opened EvbufferCore
  import opened EvbufferDrain

  const NOT_FOUND: Ptr := Ptr(-1, null, 0)

  /** `what` is at position `i` of `s`. */
  ghost predicate Occurs(s: seq<byte>, what: seq<byte>, i: int) {
    0 <= i && i + |what| <= |s| && s[i..i + |what|] == what
  }

  /** A position whose chain, if any, has a byte there. */
  ghost predicate OnByte(v: View, p: Ptr, k: nat) {
    v.At(p, k) && (k < |v.bytes| ==> p.posInChain < |v.bytes[k]|)
  }

  /** What is at a position and behind it in the same chain. */
  lemma AtBytes(buf: Evbuffer, p: Ptr, k: nat)
    requires buf.Shape() && buf.view.At(p, k)
    ensures 0 <= p.pos <= |buf.Contents()|
    ensures k < |buf.view.bytes| ==>
      var b := buf.view.bytes[k]; var rest := |b| - p.posInChain;
      && p.pos + rest <= |buf.Contents()|
      && buf.Contents()[p.pos..p.pos + rest] == b[p.posInChain..]
      && buf.view.At(Ptr(p.pos + rest, p.chain.next, 0), k + 1)
    ensures k == |buf.view.bytes| ==> p.pos == |buf.Contents()|
    ensures k <= |buf.view.bytes| == |buf.view.chains|
    ensures k < |buf.view.chains| <==> p.chain != null
  {
    FlattenAll(buf.view.bytes);
    AtBounds(buf, p, k);
    if k < |buf.view.bytes| {
      var b := buf.view.bytes[k];
      FlattenWindow(buf.view.bytes, k, p.posInChain, |b| - p.posInChain);
      assert b[p.posInChain..] == b[p.posInChain..|b|];
    }
  }

  /** `m` bytes further in the same chain. */
  lemma AtFurther(v: View, p: Ptr, k: nat, m: nat)
    requires v.At(p, k) && k < |v.bytes| && p.posInChain + m <= |v.bytes[k]|
    ensures v.At(Ptr(p.pos + m, p.chain, p.posInChain + m), k)
    ensures p.posInChain + m < |v.bytes[k]| ==> OnByte(v, Ptr(p.pos + m, p.chain, p.posInChain + m), k)
  {
  }

  lemma AtEnd(v: View, p: Ptr, k: nat)
    requires v.At(p, k) && k == |v.bytes|
    ensures OnByte(v, p, k)
  {
  }

  /** evbuffer_ptr_set with EVBUFFER_PTR_SET. */
  method PtrSet(buf: Evbuffer, position: nat) returns (result: int, pos: Ptr, ghost k: nat)
    requires buf.Shape()
    ensures result == if position <= |buf.Contents()| then 0 else -1
    ensures result == 0 ==> pos.pos == position && OnByte(buf.view, pos, k)
    ensures result != 0 ==> pos == NOT_FOUND
  {
    StartAt(buf);
    result, pos, k := Walk(buf, Ptr(0, buf.first, 0), position, 0);
  }

  /** evbuffer_ptr_set with EVBUFFER_PTR_ADD. */
  method PtrAdd(buf: Evbuffer, old_: Ptr, howfar: nat, ghost k0: nat) returns (result: int, pos: Ptr, ghost k: nat)
    requires buf.Shape() && (old_.pos >= 0 ==> buf.view.At(old_, k0))
    ensures result == if old_.pos >= 0 && howfar <= SIZE_MAX - old_.pos && old_.pos + howfar <= |buf.Contents()| then 0 else -1
    ensures result == 0 ==> pos.pos == old_.pos + howfar && OnByte(buf.view, pos, k)
    ensures result != 0 ==> pos == (if old_.pos < 0 || howfar > SIZE_MAX - old_.pos then old_ else NOT_FOUND)
  {
    k := k0;
    if old_.pos < 0 || howfar > SIZE_MAX - old_.pos {
      return -1, old_, k0;
    }
    result, pos, k := Walk(buf, old_, howfar, k0);
  }

  /** The walk of evbuffer_ptr_set: `howfar` bytes on from `start`. */
  method Walk(buf: Evbuffer, start: Ptr, howfar: nat, ghost k0: nat) returns (result: int, pos: Ptr, ghost k: nat)
    requires buf.Shape() && buf.view.At(start, k0)
    ensures result == if start.pos + howfar <= |buf.Contents()| then 0 else -1
    ensures result == 0 ==> pos.pos == start.pos + howfar && OnByte(buf.view, pos, k)
    ensures result != 0 ==> pos == NOT_FOUND
  {
    hide Evbuffer.Shape, Flatten, View.At, OnByte, Chain.Holds;
    var left: nat := howfar;
    pos, k := start, k0;
    AtBytes(buf, pos, k);
    WalkHop(buf, pos, k);
    while pos.chain != null && pos.posInChain + left >= pos.chain.off
      invariant buf.view.At(pos, k) && pos.pos + left == start.pos + howfar
      invariant pos.chain != null ==> pos.posInChain <= pos.chain.off
      decreases |buf.view.chains| - k
    {
      AtBytes(buf, pos, k);
      WalkHop(buf, pos, k);
      left := left - (pos.chain.off - pos.posInChain);
      pos := Ptr(pos.pos + (pos.chain.off - pos.posInChain), pos.chain.next, 0);
      k := k + 1;
      WalkHop(buf, pos, k);
    }
    AtBytes(buf, pos, k);
    WalkHop(buf, pos, k);
    if pos.chain != null {
      AtFurther(buf.view, pos, k, left);
      result, pos := 0, Ptr(pos.pos + left, pos.chain, pos.posInChain + left);
    } else if left == 0 {
      AtEnd(buf.view, pos, k);
      result, pos := 0, Ptr(pos.pos, null, 0);
    } else {
      result, pos := -1, NOT_FOUND;
    }
  }

  lemma WalkHop(buf: Evbuffer, p: Ptr, k: nat)
    requires buf.Shape() && buf.view.At(p, k)
    ensures k <= |buf.view.chains| == |buf.view.bytes|
    ensures p.chain != null ==> k < |buf.view.chains| && p.chain == buf.view.chains[k] && p.chain.off == |buf.view.bytes[k]|
    ensures p.chain != null ==> p.posInChain <= p.chain.off
    ensures p.chain == null ==> k == |buf.view.chains| && p.posInChain == 0
  {
  }

  /** memchr on the data of chain number `k`, from its byte `from` on. */
  method Memchr(buf: Evbuffer, c: Chain, ghost k: nat, from: nat, x: byte) returns (i: nat)
    requires buf.Shape() && k < |buf.view.chains| == |buf.view.bytes| && c == buf.view.chains[k]
    requires from <= |buf.view.bytes[k]|
    ensures from <= i <= |buf.view.bytes[k]| == c.off
    ensures forall j :: from <= j < i ==> buf.view.bytes[k][j] != x
    ensures i < c.off ==> buf.view.bytes[k][i] == x
  {
    hide *;
    ShapeParts(buf);
    NodeAt(buf, k);
    i := MemchrIn(c, buf.view.bytes[k], from, x);
  }

  method MemchrIn(c: Chain, ghost b: seq<byte>, from: nat, x: byte) returns (i: nat)
    requires c.Holds(b) && from <= |b|
    ensures from <= i <= |b| == c.off
    ensures forall j :: from <= j < i ==> b[j] != x
    ensures i < |b| ==> b[i] == x
  {
    i := from;
    while i < c.off && c.buffer[c.misalign + i] != x
      invariant from <= i <= |b|
      invariant forall j :: from <= j < i ==> b[j] != x
    {
      assert b[i] == c.buffer[c.misalign + i];
      i := i + 1;
    }
    assert i < |b| ==> b[i] == c.buffer[c.misalign + i];
  }

  /** memcmp of two strings of one length: 0 if they are equal, else the order of the first bytes that differ. */
  function Compare(a: seq<byte>, b: seq<byte>): int
    requires |a| == |b|
  {
    if a == [] then 0
    else if a[0] < b[0] then -1
    else if a[0] > b[0] then 1
    else Compare(a[1..], b[1..])
  }

  lemma {:induction false} CompareIs(a: seq<byte>, b: seq<byte>)
    requires |a| == |b|
    ensures Compare(a, b) == 0 <==> a == b
    ensures Compare(b, a) == -Compare(a, b)
    ensures forall i :: 0 <= i < |a| && a[..i] == b[..i] && a[i] < b[i] ==> Compare(a, b) == -1
  {
    if a != [] && a[0] == b[0] {
      CompareIs(a[1..], b[1..]);
      assert a == [a[0]] + a[1..] && b == [b[0]] + b[1..];
    }
    forall i | 0 <= i < |a| && a[..i] == b[..i] && a[i] < b[i]
      ensures Compare(a, b) == -1
    {
      if i > 0 {
        assert a[0] == a[..i][0] == b[..i][0] == b[0];
        assert a[1..][..i - 1] == a[..i][1..] == b[..i][1..] == b[1..][..i - 1];
      }
    }
  }

  /** Strings are compared piece by piece. */
  lemma {:induction false} CompareInTwo(a: seq<byte>, b: seq<byte>, n: nat)
    requires |a| == |b| && n <= |a|
    ensures Compare(a, b) == if Compare(a[..n], b[..n]) != 0 then Compare(a[..n], b[..n]) else Compare(a[n..], b[n..])
  {
    if n == 0 {
      assert a[0..] == a && b[0..] == b;
    } else if a[0] == b[0] {
      CompareInTwo(a[1..], b[1..], n - 1);
      assert a[..n][1..] == a[1..][..n - 1] && b[..n][1..] == b[1..][..n - 1];
    }
  }

  /** Compare what is at `p` with `want`, as far as the chain goes. */
  method MatchStep(buf: Evbuffer, p: Ptr, want: seq<byte>, ghost k: nat) returns (r: int, n: nat, next: Ptr)
    requires buf.Shape() && buf.view.At(p, k) && k < |buf.view.chains| && p.pos + |want| <= |buf.Contents()|
    ensures n <= |want| && p.pos + n <= |buf.Contents()|
    ensures r == Compare(buf.Contents()[p.pos..p.pos + n], want[..n])
    ensures n < |want| ==> next.pos == p.pos + n && buf.view.At(next, k + 1)
    ensures n < |want| ==> k < |buf.view.chains|
  {
    hide Evbuffer.Shape, Flatten, View.At, Chain.Holds, Compare;
    AtBytes(buf, p, k);
    WalkHop(buf, p, k);
    n := if |want| + p.posInChain > p.chain.off then p.chain.off - p.posInChain else |want|;
    WindowIs(buf, p, k, n);
    var part := CopyPart(buf, p.chain, k, p.posInChain, n, p.pos);
    r := Compare(part, want[..n]);
    next := Ptr(p.pos + n, p.chain.next, 0);
  }

  /** What is left to compare, one piece further. */
  lemma CompareRest(s: seq<byte>, what: seq<byte>, at: nat, i: nat, n: nat)
    requires at + |what| <= |s| && i + n <= |what|
    ensures Compare(s[at + i..at + |what|], what[i..]) ==
      if Compare(s[at + i..at + i + n], what[i..][..n]) != 0 then Compare(s[at + i..at + i + n], what[i..][..n])
      else Compare(s[at + (i + n)..at + |what|], what[i + n..])
  {
    var a, b := s[at + i..at + |what|], what[i..];
    CompareInTwo(a, b, n);
    assert a[..n] == s[at + i..at + i + n] && a[n..] == s[at + (i + n)..at + |what|] && b[n..] == what[i + n..];
  }

  /** evbuffer_ptr_memcmp */
  method PtrMemcmp(buf: Evbuffer, pos: Ptr, what: seq<byte>, ghost k0: nat) returns (r: int)
    requires buf.Shape() && (pos.pos >= 0 ==> buf.view.At(pos, k0))
    ensures r ==
      if pos.pos < 0 || |what| > SIZE_MAX - pos.pos || pos.pos + |what| > |buf.Contents()| then -1
      else Compare(buf.Contents()[pos.pos..pos.pos + |what|], what)
    ensures r == 0 <==> pos.pos >= 0 && |what| <= SIZE_MAX - pos.pos && Occurs(buf.Contents(), what, pos.pos)
  {
    hide Evbuffer.Shape, Flatten, View.At, Chain.Holds, Evbuffer.Contents, Compare;
    ShapeParts(buf);
    if pos.pos < 0 || SIZE_MAX - |what| < pos.pos || pos.pos + |what| > buf.totalLen {
      return -1;
    }
    AtBytes(buf, pos, k0);
    ghost var s := buf.Contents();
    CompareIs(s[pos.pos..pos.pos + |what|], what);
    var p, i: nat := pos, 0;
    ghost var k := k0;
    assert s[pos.pos + 0..pos.pos + |what|] == s[pos.pos..pos.pos + |what|] && what[0..] == what;
    while i < |what| && p.chain != null
      invariant i <= |what| && (i < |what| ==> p.pos == pos.pos + i && buf.view.At(p, k))
      invariant Compare(s[pos.pos + i..pos.pos + |what|], what[i..]) == Compare(s[pos.pos..pos.pos + |what|], what)
      decreases |what| - i, |buf.view.chains| - k
    {
      WalkHop(buf, p, k);
      var n, next;
      r, n, next := MatchStep(buf, p, what[i..], k);
      CompareRest(s, what, pos.pos, i, n);
      if r != 0 {
        return;
      }
      i, p, k := i + n, next, k + 1;
    }
    if i < |what| {
      AtBytes(buf, p, k);
    }
    CompareIs(s[pos.pos + |what|..pos.pos + |what|], what[|what|..]);
    return 0;
  }

  lemma WindowIs(buf: Evbuffer, p: Ptr, k: nat, n: nat)
    requires buf.Shape() && buf.view.At(p, k) && k < |buf.view.bytes| && p.posInChain + n <= |buf.view.bytes[k]|
    ensures p.pos == |Flatten(buf.view.bytes[..k])| + p.posInChain
  {
  }

  /** No occurrence of `what` starts in this range of positions. */
  ghost predicate NoneIn(s: seq<byte>, what: seq<byte>, from: int, to: int) {
    forall i :: from <= i < to ==> !Occurs(s, what, i)
  }

  /** No occurrence starts where the first byte of `what` is not. */
  lemma NoneWithoutFirst(s: seq<byte>, what: seq<byte>, from: nat, to: nat)
    requires what != [] && from <= to <= |s| && forall j :: from <= j < to ==> s[j] != what[0]
    ensures NoneIn(s, what, from, to)
  {
    forall i | from <= i < to && Occurs(s, what, i)
      ensures s[i] == what[0]
    {
      OccursFirst(s, what, i);
    }
  }

  lemma OccursFirst(s: seq<byte>, what: seq<byte>, i: int)
    requires what != [] && Occurs(s, what, i)
    ensures s[i] == what[0]
  {
    assert s[i..i + |what|][0] == s[i];
  }

  /** How far the first byte is not found in the chain of `p`. */
  method SkipToByte(buf: Evbuffer, p: Ptr, x: byte, ghost k: nat) returns (q: Ptr, found: bool)
    requires buf.Shape() && buf.view.At(p, k) && k < |buf.view.chains|
    ensures buf.view.At(q, k) && q.chain == p.chain && p.posInChain <= q.posInChain <= q.chain.off
    ensures p.pos <= q.pos <= |buf.Contents()| && q.pos - p.pos == q.posInChain - p.posInChain
    ensures forall j :: p.pos <= j < q.pos ==> buf.Contents()[j] != x
    ensures found <==> q.posInChain < q.chain.off
    ensures found ==> q.pos < |buf.Contents()| && buf.Contents()[q.pos] == x
    ensures buf.view.At(Ptr(q.pos + (q.chain.off - q.posInChain), q.chain.next, 0), k + 1)
  {
    hide Evbuffer.Shape, Flatten, View.At, Chain.Holds;
    AtBytes(buf, p, k);
    WalkHop(buf, p, k);
    var i := Memchr(buf, p.chain, k, p.posInChain, x);
    ghost var s, b := buf.Contents(), buf.view.bytes[k];
    AtFurther(buf.view, p, k, i - p.posInChain);
    q := Ptr(p.pos + (i - p.posInChain), p.chain, i);
    found := i < p.chain.off;
    ghost var w := s[p.pos..p.pos + (|b| - p.posInChain)];
    assert forall j :: p.pos <= j < p.pos + |w| ==> s[j] == w[j - p.pos] == b[j - p.pos + p.posInChain];
  }

  /** The search has to end in chain number `kEnd`, or anywhere. */
  ghost predicate EndsIn(buf: Evbuffer, lastChain: Chain?, limit: int, kEnd: nat)
    reads buf
  {
    if lastChain == null then limit >= |buf.Contents()| else
      kEnd < |buf.view.chains| == |buf.view.bytes| && lastChain == buf.view.chains[kEnd]
      && limit <= |Flatten(buf.view.bytes[..kEnd + 1])|
  }

  /** The loop of evbuffer_search_range. */
  method SearchFrom(buf: Evbuffer, what: seq<byte>, start: Ptr, lastChain: Chain?, limit: int, ghost k0: nat, ghost kEnd: nat)
      returns (r: Ptr, ghost k: nat)
    requires buf.Shape() && buf.view.At(start, k0) && 0 < |what|
    requires |buf.Contents()| <= SIZE_MAX && EndsIn(buf, lastChain, limit, kEnd)
    ensures r == NOT_FOUND ==> NoneIn(buf.Contents(), what, start.pos, limit - |what| + 1)
    ensures r != NOT_FOUND ==>
      && buf.view.At(r, k) && Occurs(buf.Contents(), what, r.pos) && start.pos <= r.pos && r.pos + |what| <= limit
      && NoneIn(buf.Contents(), what, start.pos, r.pos)
  {
    hide Evbuffer.Shape, Flatten, View.At, Chain.Holds, Occurs, Evbuffer.Contents, NoneIn, EndsIn;
    var first := what[0];
    ghost var s := buf.Contents();
    var pos := start;
    k := k0;
    NoneYet(s, what, start.pos);
    AtBytes(buf, pos, k);
    while pos.chain != null
      invariant buf.view.At(pos, k) && start.pos <= pos.pos <= |s|
      invariant pos.chain != null ==> k < |buf.view.chains|
      invariant NoneIn(s, what, start.pos, pos.pos)
      decreases |s| - pos.pos, |buf.view.chains| - k
    {
      var q, found := SkipToByte(buf, pos, first, k);
      NoneWithoutFirst(s, what, pos.pos, q.pos);
      NoneJoin(s, what, start.pos, pos.pos, q.pos);
      if found {
        var differs := PtrMemcmp(buf, q, what, k);
        if differs == 0 {
          OccursFits(s, what, q.pos);
          if q.pos + |what| > limit {
            NoneBeyond(s, what, start.pos, q.pos, limit);
            return NOT_FOUND, k;
          }
          return q, k;
        }
        OccursFits(s, what, q.pos);
        NotHere(s, what, start.pos, q.pos);
        StepOver(buf, q, k);
        pos := Ptr(q.pos + 1, q.chain, q.posInChain + 1);
        if pos.posInChain == pos.chain.off {
          AtEndOf(buf, q, k);
          pos := Ptr(pos.pos, pos.chain.next, 0);
          k := k + 1;
        }
      } else {
        if pos.chain == lastChain {
          EndHere(buf, q, k, kEnd, lastChain, limit);
          NoneBeyond(s, what, start.pos, q.pos, limit);
          return NOT_FOUND, k;
        }
        pos := Ptr(q.pos, q.chain.next, 0);
        k := k + 1;
      }
      AtBytes(buf, pos, k);
    }
    AtBytes(buf, pos, k);
    NoneLeft(s, what, start.pos, limit);
    return NOT_FOUND, k;
  }

  lemma NoneYet(s: seq<byte>, what: seq<byte>, from: int)
    ensures NoneIn(s, what, from, from)
  {
  }

  lemma NoneJoin(s: seq<byte>, what: seq<byte>, from: int, mid: int, to: int)
    requires NoneIn(s, what, from, mid) && NoneIn(s, what, mid, to)
    ensures NoneIn(s, what, from, to)
  {
    hide Occurs;
  }

  lemma NotHere(s: seq<byte>, what: seq<byte>, from: int, at: int)
    requires NoneIn(s, what, from, at) && !Occurs(s, what, at)
    ensures NoneIn(s, what, from, at + 1)
  {
    hide Occurs;
  }

  lemma NoneBeyond(s: seq<byte>, what: seq<byte>, from: int, at: int, limit: int)
    requires NoneIn(s, what, from, at) && at + |what| > limit
    ensures NoneIn(s, what, from, limit - |what| + 1)
  {
    hide Occurs;
  }

  lemma NoneLeft(s: seq<byte>, what: seq<byte>, from: int, limit: int)
    requires NoneIn(s, what, from, |s|) && what != []
    ensures NoneIn(s, what, from, limit - |what| + 1)
  {
  }

  lemma OccursFits(s: seq<byte>, what: seq<byte>, at: int)
    ensures Occurs(s, what, at) ==> 0 <= at && at + |what| <= |s|
  {
  }

  lemma StepOver(buf: Evbuffer, q: Ptr, k: nat)
    requires buf.Shape() && buf.view.At(q, k) && q.chain != null && q.posInChain < q.chain.off
    ensures buf.view.At(Ptr(q.pos + 1, q.chain, q.posInChain + 1), k) && k < |buf.view.chains|
  {
    AtFurther(buf.view, q, k, 1);
  }

  lemma AtEndOf(buf: Evbuffer, q: Ptr, k: nat)
    requires buf.Shape() && buf.view.At(q, k) && q.chain != null && q.posInChain + 1 == q.chain.off
    ensures buf.view.At(Ptr(q.pos + 1, q.chain.next, 0), k + 1)
  {
    AtBytes(buf, q, k);
  }

  /** At the end of the chain where the search has to end, nothing fits any more. */
  lemma EndHere(buf: Evbuffer, q: Ptr, k: nat, kEnd: nat, lastChain: Chain?, limit: int)
    requires buf.Shape() && buf.view.At(q, k) && EndsIn(buf, lastChain, limit, kEnd)
    requires q.chain != null && q.chain == lastChain && q.posInChain == q.chain.off
    ensures limit <= q.pos
  {
    assert k == kEnd;
    FlattenStep(buf.view.bytes, k);
  }

  lemma EndIs(buf: Evbuffer, e: Ptr, kEnd: nat)
    requires buf.Shape() && buf.view.At(e, kEnd)
    ensures EndsIn(buf, e.chain, e.pos, kEnd)
  {
    AtBytes(buf, e, kEnd);
    if kEnd < |buf.view.bytes| {
      FlattenStep(buf.view.bytes, kEnd);
    }
  }

  lemma NoEnd(buf: Evbuffer)
    ensures EndsIn(buf, null, |buf.Contents()|, 0)
  {
  }

  /** evbuffer_search_range; an empty or overlong pattern is not looked for, and gives back the start. */
  method SearchRange(buf: Evbuffer, what: seq<byte>, start: Option<Ptr>, end: Option<Ptr>, ghost k0: nat, ghost kEnd: nat)
      returns (r: Ptr, ghost k: nat)
    requires buf.Valid() && |buf.Contents()| <= SIZE_MAX
    requires start.Some? ==> buf.view.At(start.value, k0)
    requires end.Some? ==> buf.view.At(end.value, kEnd)
    ensures var from := if start.Some? then start.value.pos else 0;
      var limit := if end.Some? then end.value.pos else |buf.Contents()|;
      if |what| == 0 || |what| > SSIZE_MAX then r.pos == from
      else if r == NOT_FOUND then NoneIn(buf.Contents(), what, from, limit - |what| + 1)
      else
        && Occurs(buf.Contents(), what, r.pos) && from <= r.pos && r.pos + |what| <= limit
        && NoneIn(buf.Contents(), what, from, r.pos)
    ensures |what| == 0 || |what| > SSIZE_MAX || r != NOT_FOUND ==> buf.view.At(r, k)
  {
    hide Evbuffer.Valid, Evbuffer.Shape, Flatten, View.At, Occurs, NoneIn, EndsIn, Evbuffer.Contents;
    ValidParts(buf);
    StartAt(buf);
    NoEnd(buf);
    k := if start.Some? then k0 else 0;
    var pos := if start.Some? then start.value else Ptr(0, buf.first, 0);
    if |what| == 0 || |what| > SSIZE_MAX {
      return pos, k;
    }
    if end.Some? {
      EndIs(buf, end.value, kEnd);
      r, k := SearchFrom(buf, what, pos, end.value.chain, end.value.pos, k, kEnd);
    } else {
      r, k := SearchFrom(buf, what, pos, null, buf.totalLen, k, 0);
    }
  }
}
