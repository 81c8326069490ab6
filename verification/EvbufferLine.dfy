/**
 Lines of an evbuffer: evbuffer_search_eol and evbuffer_readln.
 */
module EvbufferLine {
  import opened Bytes
  import opened EvbufferCore
  import opened EvbufferDrain
  import opened EvbufferSearch

  const CR: byte := 13
  const LF: byte := 10
  const NUL: byte := 0
  const CHUNK_SZ: nat := 128

  datatype EolStyle = EolAny | EolCrlf | EolCrlfStrict | EolLf | EolNul

  predicate IsEolChar(x: byte) {
    x == CR || x == LF
  }

  /** A line terminator of this style starts at position `p`. */
  ghost predicate EolAt(style: EolStyle, s: seq<byte>, p: int) {
    && 0 <= p < |s|
    && match style
       case EolAny => IsEolChar(s[p])
       case EolCrlf => s[p] == LF || (s[p] == CR && p + 1 < |s| && s[p + 1] == LF)
       case EolCrlfStrict => s[p] == CR && p + 1 < |s| && s[p + 1] == LF
       case EolLf => s[p] == LF
       case EolNul => s[p] == NUL
  }

  /** How many line-end characters there are in a row from `p` on. */
  ghost function RunLen(s: seq<byte>, p: nat): nat
    requires p <= |s|
    decreases |s| - p
  {
    if p < |s| && IsEolChar(s[p]) then 1 + RunLen(s, p + 1) else 0
  }

  /** The length of the terminator that starts at `p`. */
  ghost function EolLen(style: EolStyle, s: seq<byte>, p: nat): (n: nat)
    requires EolAt(style, s, p)
    ensures 0 < n
  {
    match style
    case EolAny => RunLen(s, p)
    case EolCrlf => if s[p] == LF then 1 else 2
    case EolCrlfStrict => 2
    case EolLf => 1
    case EolNul => 1
  }

  lemma {:induction false} RunLenIs(s: seq<byte>, p: nat)
    requires p <= |s|
    ensures p + RunLen(s, p) <= |s| && forall j :: p <= j < p + RunLen(s, p) ==> IsEolChar(s[j])
    ensures p + RunLen(s, p) < |s| ==> !IsEolChar(s[p + RunLen(s, p)])
    decreases |s| - p
  {
    if p < |s| && IsEolChar(s[p]) {
      RunLenIs(s, p + 1);
    }
  }

  /** A terminator is made of line-end characters of its style only, and stays within the bytes. */
  lemma EolFits(style: EolStyle, s: seq<byte>, p: nat)
    requires EolAt(style, s, p)
    ensures p + EolLen(style, s, p) <= |s|
  {
    RunLenIs(s, p);
  }

  /** evbuffer_strchr: the first `x` at or after `it`. */
  method Strchr(buf: Evbuffer, it: Ptr, x: byte, ghost k0: nat) returns (r: Ptr, found: bool, ghost k: nat)
    requires buf.Shape() && buf.view.At(it, k0)
    ensures found ==> OnByte(buf.view, r, k) && k < |buf.view.chains| && it.pos <= r.pos < |buf.Contents()| && buf.Contents()[r.pos] == x
    ensures found ==> forall j :: it.pos <= j < r.pos ==> buf.Contents()[j] != x
    ensures !found ==> forall j :: it.pos <= j < |buf.Contents()| ==> buf.Contents()[j] != x
  {
    hide Evbuffer.Shape, Flatten, View.At, OnByte, Chain.Holds, Evbuffer.Contents;
    ghost var s := buf.Contents();
    r, k := it, k0;
    AtBytes(buf, r, k);
    while r.chain != null
      invariant buf.view.At(r, k) && it.pos <= r.pos <= |s|
      invariant r.chain != null ==> k < |buf.view.chains|
      invariant forall j :: it.pos <= j < r.pos ==> s[j] != x
      decreases |buf.view.chains| - k
    {
      var q, here := SkipToByte(buf, r, x, k);
      if here {
        OnByteIs(buf, q, k);
        return q, true, k;
      }
      r, k := Ptr(q.pos + (q.chain.off - q.posInChain), q.chain.next, 0), k + 1;
      AtBytes(buf, r, k);
    }
    AtBytes(buf, r, k);
    found := false;
  }

  lemma OnByteIs(buf: Evbuffer, p: Ptr, k: nat)
    requires buf.Shape() && buf.view.At(p, k) && p.chain != null && p.posInChain < p.chain.off
    ensures OnByte(buf.view, p, k)
  {
  }

  /** find_eol_char: two scans, a chunk at a time. */
  method FindEolIn(b: seq<byte>) returns (i: nat)
    ensures i <= |b|
    ensures forall j :: 0 <= j < i ==> !IsEolChar(b[j])
    ensures i < |b| ==> IsEolChar(b[i])
  {
    var s := 0;
    while s < |b|
      invariant forall j :: 0 <= j < s && j < |b| ==> !IsEolChar(b[j])
      decreases |b| - s
    {
      var chunk := if s + CHUNK_SZ < |b| then CHUNK_SZ else |b| - s;
      var cr := ScanFor(b, s, s + chunk, CR);
      var lf := ScanFor(b, s, s + chunk, LF);
      if cr < s + chunk {
        return if lf < s + chunk && lf < cr then lf else cr;
      } else if lf < s + chunk {
        return lf;
      }
      s := s + CHUNK_SZ;
    }
    return |b|;
  }

  method ScanFor(b: seq<byte>, from: nat, to: nat, x: byte) returns (i: nat)
    requires from <= to <= |b|
    ensures from <= i <= to && (forall j :: from <= j < i ==> b[j] != x) && (i < to ==> b[i] == x)
  {
    i := from;
    while i < to && b[i] != x
      invariant from <= i <= to && forall j :: from <= j < i ==> b[j] != x
    {
      i := i + 1;
    }
  }

  /** What is behind `p` in its chain. */
  method RestOfChain(buf: Evbuffer, p: Ptr, ghost k: nat) returns (part: seq<byte>)
    requires buf.Shape() && buf.view.At(p, k) && k < |buf.view.chains|
    ensures p.chain != null && p.posInChain + |part| == p.chain.off && p.pos + |part| <= |buf.Contents()|
    ensures part == buf.Contents()[p.pos..p.pos + |part|]
    ensures buf.view.At(Ptr(p.pos + |part|, p.chain.next, 0), k + 1)
    ensures p.chain.next == null <==> k + 1 == |buf.view.chains|
  {
    hide Evbuffer.Shape, Flatten, View.At, Chain.Holds;
    AtBytes(buf, p, k);
    WalkHop(buf, p, k);
    ShapeParts(buf);
    NodeAt(buf, k);
    NextIsNull(buf, k);
    WindowIs(buf, p, k, |buf.view.bytes[k]| - p.posInChain);
    part := CopyPart(buf, p.chain, k, p.posInChain, p.chain.off - p.posInChain, p.pos);
  }

  lemma NextIsNull(buf: Evbuffer, k: nat)
    requires buf.Shape() && k < |buf.view.chains|
    ensures buf.view.chains[k].next == null <==> k + 1 == |buf.view.chains|
  {
  }

  /** evbuffer_find_eol_char: the first line-end character at or after `it`. */
  method FindEolChar(buf: Evbuffer, it: Ptr, ghost k0: nat) returns (r: Ptr, found: bool, ghost k: nat)
    requires buf.Shape() && buf.view.At(it, k0)
    ensures found ==> OnByte(buf.view, r, k) && k < |buf.view.chains| && it.pos <= r.pos < |buf.Contents()| && IsEolChar(buf.Contents()[r.pos])
    ensures found ==> forall j :: it.pos <= j < r.pos ==> !IsEolChar(buf.Contents()[j])
    ensures !found ==> forall j :: it.pos <= j < |buf.Contents()| ==> !IsEolChar(buf.Contents()[j])
  {
    hide Evbuffer.Shape, Flatten, View.At, OnByte, Chain.Holds, Evbuffer.Contents, IsEolChar;
    ghost var s := buf.Contents();
    r, k := it, k0;
    AtBytes(buf, r, k);
    while r.chain != null
      invariant buf.view.At(r, k) && it.pos <= r.pos <= |s|
      invariant r.chain != null ==> k < |buf.view.chains|
      invariant forall j :: it.pos <= j < r.pos ==> !IsEolChar(s[j])
      decreases |buf.view.chains| - k
    {
      var part := RestOfChain(buf, r, k);
      var i := FindEolIn(part);
      assert forall j :: r.pos <= j < r.pos + |part| ==> s[j] == part[j - r.pos];
      if i < |part| {
        FurtherIs(buf, r, k, i);
        return Ptr(r.pos + i, r.chain, r.posInChain + i), true, k;
      }
      r, k := Ptr(r.pos + |part|, r.chain.next, 0), k + 1;
      AtBytes(buf, r, k);
    }
    AtBytes(buf, r, k);
    found := false;
  }

  lemma FurtherIs(buf: Evbuffer, p: Ptr, k: nat, i: nat)
    requires buf.Shape() && buf.view.At(p, k) && p.chain != null && p.posInChain + i < p.chain.off
    ensures OnByte(buf.view, Ptr(p.pos + i, p.chain, p.posInChain + i), k)
  {
    AtFurther(buf.view, p, k, i);
  }

  /** How many of the bytes at the beginning of `part` are line-end characters. */
  method RunIn(part: seq<byte>, ghost s: seq<byte>, ghost p: nat) returns (i: nat)
    requires p + |part| <= |s| && part == s[p..p + |part|]
    ensures i <= |part| && RunLen(s, p) == i + RunLen(s, p + i)
    ensures i < |part| ==> RunLen(s, p + i) == 0
  {
    i := 0;
    while i < |part| && IsEolChar(part[i])
      invariant i <= |part| && RunLen(s, p) == i + RunLen(s, p + i)
    {
      assert part[i] == s[p + i];
      i := i + 1;
    }
    assert i < |part| ==> part[i] == s[p + i];
  }

  /**
   evbuffer_strspn for the set of line-end characters: how many there are in a row at `it`, and the
   position behind them. Of a run up to the end of the buffer only `pos` is right in that position;
   its place in the list is the beginning of the last chain.
   */
  method StrspnEol(buf: Evbuffer, it: Ptr, ghost k0: nat) returns (count: nat, r: Ptr, ghost k: nat)
    requires buf.Shape() && buf.view.At(it, k0)
    ensures 0 <= it.pos <= |buf.Contents()| && count == RunLen(buf.Contents(), it.pos)
    ensures r.pos == it.pos + count
    ensures r.pos < |buf.Contents()| || it.chain == null ==> buf.view.At(r, k)
    ensures r.pos == |buf.Contents()| && it.chain != null ==> r.chain == buf.last && r.posInChain == 0
  {
    hide Evbuffer.Shape, Flatten, View.At, Chain.Holds, Evbuffer.Contents, RunLen, OnByte;
    count, r, k := 0, it, k0;
    ghost var s := buf.Contents();
    AtBytes(buf, it, k0);
    WalkHop(buf, it, k0);
    if it.chain == null {
      RunEnds(s);
      return;
    }
    var p := it;
    while true
      invariant buf.view.At(p, k) && k < |buf.view.chains| && p.pos == it.pos + count <= |s|
      invariant RunLen(s, it.pos) == count + RunLen(s, p.pos)
      decreases |buf.view.chains| - k
    {
      var part := RestOfChain(buf, p, k);
      var i := RunIn(part, s, p.pos);
      count := count + i;
      if i < |part| {
        FurtherIs(buf, p, k, i);
        OnByteAt(buf, Ptr(p.pos + i, p.chain, p.posInChain + i), k);
        return count, Ptr(p.pos + i, p.chain, p.posInChain + i), k;
      }
      WalkHop(buf, p, k);
      NextIsNull(buf, k);
      var chain := p.chain;
      p, k := Ptr(p.pos + |part|, p.chain.next, 0), k + 1;
      AtBytes(buf, p, k);
      if p.chain == null {
        RunEnds(s);
        LastChain(buf, k);
        return count, Ptr(p.pos, chain, 0), k;
      }
    }
  }

  lemma LastChain(buf: Evbuffer, k: nat)
    requires buf.Shape() && k == |buf.view.chains| > 0
    ensures buf.last == buf.view.chains[k - 1]
  {
  }

  lemma RunEnds(s: seq<byte>)
    ensures RunLen(s, |s|) == 0
  {
  }

  /** evbuffer_ptr_subtract; a position that is not there is not moved. */
  method PtrSubtract(buf: Evbuffer, p: Ptr, howfar: nat, ghost k0: nat) returns (result: int, r: Ptr, ghost k: nat)
    requires buf.Shape() && (p.pos >= 0 ==> buf.view.At(p, k0))
    ensures result == if howfar <= p.pos then 0 else -1
    ensures result == 0 ==> r.pos == p.pos - howfar && buf.view.At(r, k)
    ensures result == 0 && (howfar > 0 || OnByte(buf.view, p, k0)) ==> OnByte(buf.view, r, k)
    ensures result != 0 ==> r == p
  {
    hide Evbuffer.Shape, Flatten, View.At, Chain.Holds, Evbuffer.Contents, OnByte;
    r, k := p, k0;
    if p.pos < 0 || howfar > p.pos {
      return -1, p, k0;
    }
    AtBytes(buf, p, k0);
    if p.chain != null && howfar <= p.posInChain {
      AtBack(buf.view, p, k0, howfar);
      return 0, Ptr(p.pos - howfar, p.chain, p.posInChain - howfar), k0;
    }
    result, r, k := PtrSet(buf, p.pos - howfar);
    OnByteAt(buf, r, k);
  }

  lemma AtBack(v: View, p: Ptr, k: nat, m: nat)
    requires v.At(p, k) && m <= p.posInChain
    ensures v.At(Ptr(p.pos - m, p.chain, p.posInChain - m), k)
    ensures m > 0 || OnByte(v, p, k) ==> OnByte(v, Ptr(p.pos - m, p.chain, p.posInChain - m), k)
  {
  }

  /** evbuffer_getchr */
  method Getchr(buf: Evbuffer, it: Ptr, ghost k: nat) returns (x: int)
    requires buf.Shape() && OnByte(buf.view, it, k)
    ensures 0 <= it.pos <= |buf.Contents()|
    ensures x == if it.pos < |buf.Contents()| then buf.Contents()[it.pos] else -1
  {
    hide Evbuffer.Shape, Flatten, View.At, Chain.Holds;
    AtBytes(buf, it, k);
    if it.chain == null {
      return -1;
    }
    NodeIs(buf, k);
    x := ReadByte(it.chain, buf.view.bytes[k], it.posInChain);
    ghost var b := buf.view.bytes[k];
    assert b[it.posInChain..][0] == b[it.posInChain];
  }

  method ReadByte(c: Chain, ghost b: seq<byte>, i: nat) returns (x: byte)
    requires c.Holds(b) && i < |b|
    ensures x == b[i]
  {
    x := c.buffer[c.misalign + i];
    assert x == Window(c.buffer, c.misalign, c.off)[i];
  }

  lemma NodeIs(buf: Evbuffer, k: nat)
    requires buf.Shape() && k < |buf.view.chains|
    ensures k < |buf.view.bytes| && buf.view.chains[k].Holds(buf.view.bytes[k])
    ensures forall p: Ptr :: buf.view.At(p, k) ==> p.chain == buf.view.chains[k]
  {
  }

  /** The leftmost terminator at or after `from` starts at `p`. */
  ghost predicate FirstEol(style: EolStyle, s: seq<byte>, from: int, p: int) {
    from <= p && EolAt(style, s, p) && NoEol(style, s, from, p)
  }

  ghost predicate NoEol(style: EolStyle, s: seq<byte>, from: int, to: int) {
    forall j :: from <= j < to ==> !EolAt(style, s, j)
  }

  /** evbuffer_search_eol for EVBUFFER_EOL_CRLF: look for a LF, optionally preceded by a CR. */
  method SearchCrlf(buf: Evbuffer, it: Ptr, ghost k0: nat) returns (r: Ptr, eolLen: nat, ghost k: nat)
    requires buf.Shape() && buf.view.At(it, k0)
    ensures r == NOT_FOUND ==> eolLen == 0 && NoEol(EolCrlf, buf.Contents(), it.pos, |buf.Contents()|)
    ensures r != NOT_FOUND ==> buf.view.At(r, k) && FirstEol(EolCrlf, buf.Contents(), it.pos, r.pos)
    ensures r != NOT_FOUND ==> eolLen == EolLen(EolCrlf, buf.Contents(), r.pos)
  {
    hide Evbuffer.Shape, Flatten, View.At, OnByte, Evbuffer.Contents;
    AtBytes(buf, it, k0);
    var found;
    r, found, k := Strchr(buf, it, LF, k0);
    if !found {
      return NOT_FOUND, 0, k;
    }
    OnByteAt(buf, r, k);
    if r.pos == it.pos {
      return r, 1, k;
    }
    var result, back, kb := PtrSubtract(buf, r, 1, k);
    OnByteAt(buf, back, kb);
    var c := Getchr(buf, back, kb);
    if c == CR {
      return back, 2, kb;
    }
    return r, 1, k;
  }

  /**
   evbuffer_search_eol: the leftmost terminator, and its length. Looking for CRLF it looks for
   the LF and then backs up over a CR, but never to before the start.
   */
  method SearchEol(buf: Evbuffer, start: Option<Ptr>, style: EolStyle, ghost k0: nat)
      returns (r: Ptr, eolLen: nat, ghost k: nat)
    requires buf.Valid() && |buf.Contents()| <= SIZE_MAX
    requires start.Some? ==> buf.view.At(start.value, k0)
    ensures var from := if start.Some? then start.value.pos else 0;
      if r == NOT_FOUND then eolLen == 0 && NoEol(style, buf.Contents(), from, |buf.Contents()|)
      else FirstEol(style, buf.Contents(), from, r.pos) && eolLen == EolLen(style, buf.Contents(), r.pos)
    ensures r != NOT_FOUND ==> buf.view.At(r, k)
  {
    hide Evbuffer.Valid, Evbuffer.Shape, Flatten, View.At, OnByte, Evbuffer.Contents, RunLen, Occurs, NoneIn;
    ValidParts(buf);
    StartAt(buf);
    k := if start.Some? then k0 else 0;
    var it := if start.Some? then start.value else Ptr(0, buf.first, 0);
    AtBytes(buf, it, k);
    ghost var s := buf.Contents();
    eolLen := 0;
    if start.Some? && it.chain == null {
      return NOT_FOUND, 0, k;
    }
    match style {
      case EolAny =>
        var found;
        r, found, k := FindEolChar(buf, it, k);
        if found {
          OnByteAt(buf, r, k);
          var n, _, _ := StrspnEol(buf, r, k);
          return r, n, k;
        }
      case EolCrlfStrict =>
        r, k := SearchRange(buf, [CR, LF], Some(it), None, k, 0);
        CrlfOccurs(s, it.pos, r.pos);
        if r.pos >= 0 {
          return r, 2, k;
        }
      case EolCrlf =>
        r, eolLen, k := SearchCrlf(buf, it, k);
        return;
      case EolLf =>
        var found;
        r, found, k := Strchr(buf, it, LF, k);
        if found {
          OnByteAt(buf, r, k);
          return r, 1, k;
        }
      case EolNul =>
        var found;
        r, found, k := Strchr(buf, it, NUL, k);
        if found {
          OnByteAt(buf, r, k);
          return r, 1, k;
        }
    }
    r, eolLen := NOT_FOUND, 0;
  }

  lemma OnByteAt(buf: Evbuffer, p: Ptr, k: nat)
    requires buf.Shape() && OnByte(buf.view, p, k)
    ensures buf.view.At(p, k) && 0 <= p.pos <= |buf.Contents()|
    ensures p.pos < |buf.Contents()| ==> p.chain != null
  {
    AtBytes(buf, p, k);
  }

  /** An occurrence of CR LF is a strict CRLF terminator. */
  lemma CrlfOccurs(s: seq<byte>, from: nat, p: int)
    requires from <= |s|
    ensures Occurs(s, [CR, LF], p) && NoneIn(s, [CR, LF], from, p) && from <= p ==> FirstEol(EolCrlfStrict, s, from, p)
    ensures NoneIn(s, [CR, LF], from, |s| - 1) ==> NoEol(EolCrlfStrict, s, from, |s|)
  {
    hide NoneIn;
    forall i ensures Occurs(s, [CR, LF], i) <==> EolAt(EolCrlfStrict, s, i) {
      if 0 <= i && i + 2 <= |s| {
        assert s[i..i + 2] == [s[i], s[i + 1]];
      }
    }
    NoneIs(s, from, p);
    NoneIs(s, from, |s| - 1);
  }

  lemma NoneIs(s: seq<byte>, from: int, to: int)
    ensures NoneIn(s, [CR, LF], from, to) ==> forall i :: from <= i < to ==> !Occurs(s, [CR, LF], i)
  {
  }

  /**
   evbuffer_readln: the old contents are the line, then the leftmost terminator, then the new
   contents; with no terminator, or a frozen start, nothing happens.
   */
  method Readln(buf: Evbuffer, style: EolStyle) returns (line: Option<seq<byte>>)
    requires buf.Valid() && |buf.Contents()| <= SIZE_MAX
    modifies buf, buf.foot
    ensures buf.Valid() && buf.foot == old(buf.foot)
    ensures line == None <==> old(buf.freezeStart) || NoEol(style, old(buf.Contents()), 0, |old(buf.Contents())|)
    ensures line == None ==> buf.Contents() == old(buf.Contents())
    ensures line.Some? ==> SplitsAt(old(buf.Contents()), style, line.value, buf.Contents())
    ensures if line == None then buf.Silent() else ToldOfLine(buf, |old(buf.Contents())|, |line.value|, |old(buf.Contents())| - |line.value| - |buf.Contents()|)
  {
    hide Evbuffer.Valid, Evbuffer.Contents, EolAt, NoEol, View.At, SplitsAt;
    if buf.freezeStart {
      return None;
    }
    ghost var s := buf.Contents();
    var it, extra, k := SearchEol(buf, None, style, 0);
    if it == NOT_FOUND {
      return None;
    }
    FirstIs(style, s, it.pos);
    var data := TakeLine(buf, it.pos, extra);
    SplitIs(s, style, data, extra, buf.Contents());
    return Some(data);
  }

  /** Take off a line, and its terminator. */
  method TakeLine(buf: Evbuffer, n: nat, extra: nat) returns (data: seq<byte>)
    requires buf.Valid() && !buf.freezeStart && 0 < extra && n + extra <= |buf.Contents()| <= SIZE_MAX
    modifies buf, buf.foot
    ensures buf.Valid() && buf.foot == old(buf.foot) && data == old(buf.Contents())[..n]
    ensures buf.Contents() == old(buf.Contents())[n + extra..]
    ensures ToldOfLine(buf, |old(buf.Contents())|, n, extra)
  {
    hide Evbuffer.Valid, Evbuffer.Shape, Evbuffer.Contents, Evbuffer.Reported;
    ghost var s := buf.Contents();
    ValidParts(buf);
    var _, got := Remove(buf, n);
    assert s[..n] == got && s[n..] == buf.Contents();
    ValidParts(buf);
    var _ := Drain(buf, extra);
    return got;
  }

  /**
   The line and its terminator are taken off one after the other: callbacks that are told at once are
   told of both, and else the sum of both is counted.
   */
  twostate predicate ToldOfLine(buf: Evbuffer, n: nat, line: nat, eol: nat)
    reads buf`nAddForCb, buf`nDelForCb, buf`reports, buf`early, buf`cbBase
  {
    var a, d := old(buf.nAddForCb), old(buf.nDelForCb);
    match buf.cbMode
    case NoCallbacks => buf.reports == old(buf.reports)
    case Immediate => buf.nAddForCb == buf.nDelForCb == 0 && buf.reports == old(buf.reports) +
      if line == 0 then [CbInfo(old(buf.cbBase), a, d + eol)]
      else [CbInfo(old(buf.cbBase), a, d + line), CbInfo(n - line, 0, eol)]
    case Deferred => buf.nAddForCb == a && buf.nDelForCb == d + line + eol && buf.reports == old(buf.reports)
  }

  lemma FirstIs(style: EolStyle, s: seq<byte>, p: int)
    requires FirstEol(style, s, 0, p)
    ensures 0 <= p < |s| && EolAt(style, s, p) && p + EolLen(style, s, p) <= |s|
    ensures !NoEol(style, s, 0, |s|)
  {
    EolFits(style, s, p);
  }

  /** `s` is `line`, then its leftmost terminator, then `rest`. */
  ghost predicate SplitsAt(s: seq<byte>, style: EolStyle, line: seq<byte>, rest: seq<byte>) {
    && FirstEol(style, s, 0, |line|)
    && var end := |line| + EolLen(style, s, |line|);
      end <= |s| && s == line + s[|line|..end] + rest
  }

  lemma SplitIs(s: seq<byte>, style: EolStyle, line: seq<byte>, n: nat, rest: seq<byte>)
    requires FirstEol(style, s, 0, |line|) && n == EolLen(style, s, |line|)
    requires line <= s && |line| + n <= |s| && rest == s[|line| + n..]
    ensures SplitsAt(s, style, line, rest)
  {
    EolFits(style, s, |line|);
  }
}
