/**
 Taking whole frames off a buffer, and the round trips: what was marshalled comes back.
 */
module TagFrames {
  import opened Bytes
  import opened EvbufferCore
  import opened EvbufferAppend
  import opened EvbufferDrain
  import opened EvbufferMove
  import opened EvbufferPullup
  import opened TagCodec
  import opened TagStream

  /** The header of a frame reads as its tag and payload length, whatever follows the frame. */
  lemma HeaderComesBack(f: Frame, rest: seq<byte>)
    requires Encodable(f)
    ensures var s := FrameBytes(f) + rest;
      && HeaderOf(s).Some? && HeaderOf(s).value.tag == f.tag && HeaderOf(s).value.len == |f.payload|
      && HeaderOf(s).value.size + |f.payload| == |FrameBytes(f)|
      && s[HeaderOf(s).value.size..] == f.payload + rest
  {
    hide TagBytes, IntBytes, TagFrom, IntAt;
    LengthFits(f);
    Powers128();
    var s, t, l := FrameBytes(f) + rest, TagBytes(f.tag), IntBytes(|f.payload|);
    TagComesBack([], f.tag, l + f.payload + rest);
    assert s == [] + t + (l + f.payload + rest);
    IntComesBack(t, |f.payload|, f.payload + rest, 8);
    assert s == t + l + (f.payload + rest);
  }

  /** With a frozen start, a tag below 16 is read as the length, too. */
  lemma FrozenTagIsLength(f: Frame, rest: seq<byte>)
    requires Encodable(f) && f.tag < 16
    ensures HeaderOf(FrameBytes(f) + rest, true) == Some(Header(f.tag, f.tag, 0))
  {
    LengthFits(f);
    var s := FrameBytes(f) + rest;
    assert TagBytes(f.tag) == [f.tag] && s[0] == f.tag;
    assert Value(s, 0, 1, 1) == f.tag;
  }

  lemma {:induction false} HighBits(tag: nat, k: nat)
    requires k + 1 < |TagBytes(tag)|
    ensures TagBytes(tag)[k] >= 128
  {
    if k > 0 {
      HighBits(tag / 128, k - 1);
    }
  }

  /** Behind a tag that is all there, a malformed length costs just the tag. */
  lemma BadLengthLosesTag(tag: nat, bad: seq<byte>)
    requires tag < TWO_32 && IntAt(bad, 0, 8).None?
    ensures HeaderOf(TagBytes(tag) + bad).None? && HeaderDrain(TagBytes(tag) + bad) == |TagBytes(tag)|
  {
    hide TagBytes, TagFrom, IntAt;
    var s := TagBytes(tag) + bad;
    Powers128();
    TagComesBack([], tag, bad);
    assert s == [] + TagBytes(tag) + bad;
    IntAfter(s, |TagBytes(tag)|, 8);
    assert s[|TagBytes(tag)|..] == bad;
  }

  /** The payload that the header announces is there. */
  predicate Complete(s: seq<byte>, frozen: bool := false) {
    HeaderOf(s, frozen).Some? && HeaderOf(s, frozen).value.size + HeaderOf(s, frozen).value.len <= |s|
  }

  /**
   evtag_unmarshal. A payload length that does not fit an int comes out negative, and asks
   evbuffer_add for more than there can be: of such a frame only the header is taken. From a buffer
   whose start is frozen nothing is taken, and the bytes copied are those at its front.
   */
  method Unmarshal(src: Evbuffer, dst: Evbuffer) returns (result: int, tag: nat)
    requires Readable(src) && dst.Valid() && Apart(src, dst)
    modifies src, src.foot, dst, dst.foot
    ensures Readable(src) && dst.Valid() && Apart(src, dst) && fresh(src.foot + dst.foot - old(src.foot + dst.foot))
    ensures dst.freezeEnd == old(dst.freezeEnd) && src.freezeStart == old(src.freezeStart)
    ensures var s, frozen := old(src.Contents()), old(src.freezeStart);
      var h := HeaderOf(s, frozen);
      if !Complete(s, frozen) then
        && result == -1 && dst.Contents() == old(dst.Contents())
        && HeaderDrain(s, frozen) <= |s| && src.Contents() == s[HeaderDrain(s, frozen)..]
      else if h.value.len > INT_MAX || old(dst.freezeEnd) || h.value.len > SIZE_MAX - |old(dst.Contents())| then
        result == -1 && dst.Contents() == old(dst.Contents()) && src.Contents() == s[h.value.size..]
      else
        && result == h.value.len && tag == h.value.tag
        && dst.Contents() == old(dst.Contents()) + s[h.value.size..h.value.size + h.value.len]
        && src.Contents() == s[if frozen then 0 else h.value.size + h.value.len..]
  {
    hide Evbuffer.Valid, Evbuffer.Contents, HeaderOf, HeaderDrain, ToInt;
    ghost var s := src.Contents();
    HeaderInside(s, src.freezeStart);
    var len;
    len, tag := UnmarshalHeader(src);
    if len == -1 {
      return -1, tag;
    }
    if len < 0 {
      RefuseNegative(src, dst, len);
      return -1, tag;
    }
    var data := PullFront(src, len);
    var added := Add(dst, data);
    if added == -1 {
      return -1, tag;
    }
    var _ := Drain(src, len);
    return len, tag;
  }

  /** Pull up and add a negative number of bytes: everything is pulled up, and nothing added. */
  method RefuseNegative(src: Evbuffer, dst: Evbuffer, len: int)
    requires Readable(src) && dst.Valid() && Apart(src, dst) && -(INT_MAX as int) - 1 <= len < 0
    modifies src`first, src`last, src`lastWithDataPred, src`totalLen, src`view, src`foot, src.foot, dst, dst.foot
    ensures Readable(src) && dst.Valid() && Apart(src, dst) && fresh(src.foot + dst.foot - old(src.foot + dst.foot))
    ensures dst.freezeEnd == old(dst.freezeEnd) && src.freezeStart == old(src.freezeStart)
    ensures src.Contents() == old(src.Contents()) && dst.Contents() == old(dst.Contents())
  {
    hide Evbuffer.Valid, Evbuffer.Contents;
    PullAll(src, len);
    var _ := AddSized(dst, [], SIZE_MAX + 1 + len);
  }

  method PullAll(buf: Evbuffer, len: int)
    requires Readable(buf)
    modifies buf`first, buf`last, buf`lastWithDataPred, buf`totalLen, buf`view, buf`foot, buf.foot
    ensures Readable(buf) && buf.Contents() == old(buf.Contents()) && fresh(buf.foot - old(buf.foot))
    ensures buf.freezeStart == old(buf.freezeStart)
  {
    hide Evbuffer.Valid, Evbuffer.Contents;
    ValidParts(buf);
    var _ := Pullup(buf, len);
  }

  /**
   A frame that is not all there is refused, and what is taken off is what could be read of its
   header: nothing of a broken tag, the tag before a broken length, or the header before a broken payload.
   */
  lemma {:induction false} PrefixIsRefused(f: Frame, k: nat)
    requires Encodable(f) && k < |FrameBytes(f)|
    ensures Written(|f.payload|) <= 16
    ensures var s, t, l := FrameBytes(f)[..k], |TagBytes(f.tag)|, |IntBytes(|f.payload|)|;
      && !Complete(s) && (HeaderOf(s).Some? <==> t + l <= k)
      && HeaderDrain(s) == if k < t then 0 else if k < t + l then t else t + l
  {
    hide TagBytes, IntBytes, TagFrom, IntAt;
    LengthFits(f);
    Powers128();
    var s, a, b := FrameBytes(f)[..k], TagBytes(f.tag), IntBytes(|f.payload|);
    if k < |a| {
      assert s == a[..k];
      BrokenTag(f.tag, k);
    } else if k < |a| + |b| {
      assert s == a + b[..k - |a|];
      BrokenInt(|f.payload|, k - |a|, 8);
      BadLengthLosesTag(f.tag, b[..k - |a|]);
    } else {
      var p := f.payload[..k - |a| - |b|];
      assert s == a + b + p == [] + a + (b + p);
      TagComesBack([], f.tag, b + p);
      IntComesBack(a, |f.payload|, p, 8);
    }
  }

  lemma BrokenTag(tag: nat, k: nat)
    requires k < |TagBytes(tag)|
    ensures TagFrom(TagBytes(tag)[..k], 0).None?
  {
    hide TagBytes, TagFrom;
    var s := TagBytes(tag)[..k];
    forall n: nat
      ensures !TagEnds(s, n)
    {
      if 1 <= n <= k {
        HighBits(tag, n - 1);
      }
    }
    if TagFrom(s, 0).Some? {
      TagReads(s, 0);
      assert false;
    }
  }

  lemma BrokenInt(number: nat, k: nat, max: nat)
    requires Written(number) <= 16 && k < |IntBytes(number)|
    ensures IntAt(IntBytes(number)[..k], 0, max).None?
  {
    hide IntBytes;
    if k > 0 {
      IntByteAt(number, 0);
    }
  }

  /** Frames one after another. */
  function StreamBytes(frames: seq<Frame>): seq<byte>
    requires forall f :: f in frames ==> Encodable(f)
  {
    if frames == [] then [] else FrameBytes(frames[0]) + StreamBytes(frames[1..])
  }

  ghost function Payloads(frames: seq<Frame>): seq<byte> {
    if frames == [] then [] else frames[0].payload + Payloads(frames[1..])
  }

  /** Marshal all frames. */
  method SendAll(buf: Evbuffer, frames: seq<Frame>)
    requires forall f :: f in frames ==> Encodable(f)
    requires Writable(buf, 10 * |frames| + |Payloads(frames)|)
    modifies buf, buf.foot
    ensures Writable(buf, 0) && buf.freezeStart == old(buf.freezeStart)
    ensures buf.Contents() == old(buf.Contents()) + StreamBytes(frames)
  {
    hide Evbuffer.Valid, Evbuffer.Contents, FrameBytes;
    ghost var s := buf.Contents();
    for i := 0 to |frames|
      invariant Writable(buf, 10 * (|frames| - i) + |Payloads(frames[i..])|) && fresh(buf.foot - old(buf.foot))
      invariant buf.freezeStart == old(buf.freezeStart)
      invariant buf.Contents() + StreamBytes(frames[i..]) == s + StreamBytes(frames)
    {
      ghost var now, f := buf.Contents(), FrameBytes(frames[i]);
      assert frames[i..][0] == frames[i] && frames[i..][1..] == frames[i + 1..];
      assert now + (f + StreamBytes(frames[i + 1..])) == now + f + StreamBytes(frames[i + 1..]);
      Marshal(buf, frames[i].tag, frames[i].payload);
    }
  }

  /**
   Any frames with payloads that an int can measure, followed by any bytes, are recovered one by
   one by evtag_unmarshal, which leaves the bytes behind them, if only the start is not frozen.
   */
  method ReceiveAll(src: Evbuffer, dst: Evbuffer, ghost frames: seq<Frame>, n: nat, ghost rest: seq<byte>) returns (tags: seq<nat>)
    requires Readable(src) && dst.Valid() && Apart(src, dst) && n == |frames|
    requires !src.freezeStart && !dst.freezeEnd && |dst.Contents()| + |Payloads(frames)| <= SIZE_MAX
    requires forall f :: f in frames ==> Encodable(f) && |f.payload| <= INT_MAX
    requires src.Contents() == StreamBytes(frames) + rest
    modifies src, src.foot, dst, dst.foot
    ensures Readable(src) && dst.Valid() && src.Contents() == rest
    ensures dst.Contents() == old(dst.Contents()) + Payloads(frames)
    ensures |tags| == n && forall i :: 0 <= i < n ==> tags[i] == frames[i].tag
  {
    hide Evbuffer.Valid, Evbuffer.Contents, FrameBytes, HeaderOf, HeaderDrain;
    ghost var d := dst.Contents();
    tags := [];
    for i := 0 to n
      invariant Readable(src) && dst.Valid() && Apart(src, dst) && !src.freezeStart && !dst.freezeEnd
      invariant fresh(src.foot + dst.foot - old(src.foot + dst.foot))
      invariant src.Contents() == StreamBytes(frames[i..]) + rest
      invariant dst.Contents() + Payloads(frames[i..]) == d + Payloads(frames)
      invariant |tags| == i && forall j :: 0 <= j < i ==> tags[j] == frames[j].tag
    {
      ghost var f, more := frames[i], StreamBytes(frames[i + 1..]) + rest;
      assert frames[i..][0] == f && frames[i..][1..] == frames[i + 1..];
      assert src.Contents() == FrameBytes(f) + more;
      HeaderComesBack(f, more);
      FrameCut(FrameBytes(f) + more, HeaderOf(FrameBytes(f) + more).value.size, f.payload, more);
      ghost var now := dst.Contents();
      assert now + (f.payload + Payloads(frames[i + 1..])) == now + f.payload + Payloads(frames[i + 1..]);
      var _, tag := Unmarshal(src, dst);
      tags := tags + [tag];
    }
  }

  lemma FrameCut(s: seq<byte>, h: nat, payload: seq<byte>, more: seq<byte>)
    requires h <= |s| && s[h..] == payload + more
    ensures h + |payload| <= |s| && s[h..h + |payload|] == payload && s[h + |payload|..] == more
  {
    assert s[h..h + |payload|] == s[h..][..|payload|];
    assert s[h + |payload|..] == s[h..][|payload|..];
  }

  // ---- Looking and skipping ----

  /** What an operation answers and leaves in the buffer. */
  datatype Outcome<T> = Outcome(result: int, value: T, rest: seq<byte>)

  /** evtag_peek_length, evtag_payload_length (the former adds the header's size, in 32 bits) */
  method PeekLength(buf: Evbuffer, payloadOnly: bool) returns (result: int, length: nat)
    requires Readable(buf)
    modifies buf, buf.foot
    ensures Readable(buf) && buf.Contents() == old(buf.Contents()) && fresh(buf.foot - old(buf.foot))
    ensures result == if HeaderOf(buf.Contents()).Some? then 0 else -1
    ensures result == 0 ==> length == if payloadOnly then HeaderOf(buf.Contents()).value.len else Peeked(buf.Contents())
  {
    hide Evbuffer.Valid, Evbuffer.Contents, TagFrom, IntAt;
    ghost var s := buf.Contents();
    HeaderInside(s);
    TagFromBounded(s, 0);
    assert s[0..] == s;
    var len, _, _ := DecodeTag(buf, false);
    if len == -1 {
      return -1, 0;
    }
    var res := DecodeInt(buf, len, 8);
    if res.None? {
      return -1, 0;
    }
    return 0, if payloadOnly then res.value.0 else (res.value.0 + (res.value.1 + len)) % TWO_32;
  }

  function Peeked(s: seq<byte>): nat
    requires HeaderOf(s).Some?
  {
    (HeaderOf(s).value.len + HeaderOf(s).value.size) % TWO_32
  }

  /** A drain by an int: a negative one asks for more than there can be. */
  function DrainedBy(s: seq<byte>, len: int, frozen: bool := false): seq<byte> {
    if frozen then s else if len < 0 || len > |s| then [] else s[len..]
  }

  method DrainInt(buf: Evbuffer, len: int)
    requires Readable(buf) && -0x1_0000_0000 <= len
    modifies buf, buf.foot
    ensures Readable(buf) && fresh(buf.foot - old(buf.foot)) && buf.freezeEnd == old(buf.freezeEnd)
    ensures buf.freezeStart == old(buf.freezeStart)
    ensures buf.Contents() == DrainedBy(old(buf.Contents()), len, old(buf.freezeStart))
  {
    hide Evbuffer.Valid, Evbuffer.Contents;
    ghost var s := buf.Contents();
    assert s[|s|..] == [];
    var _ := Drain(buf, if len < 0 then SIZE_MAX + 1 + len else len);
  }

  function ConsumeOutcome(s: seq<byte>, frozen: bool := false): Outcome<()> {
    HeaderInside(s, frozen);
    var rest := s[HeaderDrain(s, frozen)..];
    if !Complete(s, frozen) || ToInt(HeaderOf(s, frozen).value.len) == -1 then Outcome(-1, (), rest)
    else Outcome(0, (), DrainedBy(rest, ToInt(HeaderOf(s, frozen).value.len), frozen))
  }

  /** evtag_consume */
  method Consume(buf: Evbuffer) returns (result: int)
    requires Readable(buf)
    modifies buf, buf.foot
    ensures Readable(buf) && fresh(buf.foot - old(buf.foot))
    ensures Outcome(result, (), buf.Contents()) == ConsumeOutcome(old(buf.Contents()), old(buf.freezeStart))
  {
    hide Evbuffer.Valid, Evbuffer.Contents, HeaderOf, HeaderDrain, DrainedBy;
    ghost var s := buf.Contents();
    HeaderInside(s, buf.freezeStart);
    var len, _ := UnmarshalHeader(buf);
    if len == -1 {
      return -1;
    }
    DrainInt(buf, len);
    return 0;
  }

  /**
   evtag_consume removes exactly as much as evtag_peek_length says when the payload length fits an
   int. Beyond that it takes everything, so the two agree only if nothing follows the frame and
   the whole length still fits 32 bits; and the largest length of all is mistaken for an error.
   */
  lemma ConsumeMatchesPeek(s: seq<byte>)
    requires Complete(s)
    ensures var h, c := HeaderOf(s).value, ConsumeOutcome(s);
      c.result == 0 && |s| - |c.rest| == Peeked(s)
      <==> h.len <= INT_MAX || (h.len < TWO_32 - 1 && |s| == h.size + h.len < TWO_32)
  {
    hide HeaderOf, HeaderDrain;
    HeaderInside(s);
  }

  /** For one: of a frame with a payload of 2^31 bytes and a byte behind it, all is consumed. */
  lemma ConsumeTakesTooMuch(f: Frame, next: byte)
    requires f.tag == 1 && |f.payload| == INT_MAX + 1
    ensures var s := FrameBytes(f) + [next];
      HeaderOf(s).Some? && Peeked(s) == |s| - 1 && ConsumeOutcome(s) == Outcome(0, (), [])
  {
    hide HeaderOf, HeaderDrain, FrameBytes;
    HeaderComesBack(f, [next]);
    HeaderInside(FrameBytes(f) + [next]);
  }

  lemma ConsumeRefusesPrefix(f: Frame, k: nat)
    requires Encodable(f) && k < |FrameBytes(f)|
    ensures var s := FrameBytes(f)[..k];
      HeaderDrain(s) <= k && ConsumeOutcome(s) == Outcome(-1, (), s[HeaderDrain(s)..])
  {
    hide HeaderOf, HeaderDrain, FrameBytes;
    PrefixIsRefused(f, k);
    HeaderInside(FrameBytes(f)[..k]);
  }

  lemma ConsumeTakesFrame(f: Frame, rest: seq<byte>)
    requires Encodable(f) && |f.payload| <= INT_MAX
    ensures ConsumeOutcome(FrameBytes(f) + rest) == Outcome(0, (), rest)
    ensures HeaderOf(FrameBytes(f) + rest).Some? && Peeked(FrameBytes(f) + rest) == |FrameBytes(f)|
  {
    hide HeaderOf, HeaderDrain, FrameBytes;
    var s := FrameBytes(f) + rest;
    HeaderComesBack(f, rest);
    HeaderInside(s);
    FrameCut(s, HeaderOf(s).value.size, f.payload, rest);
    assert s[HeaderDrain(s)..][|f.payload|..] == rest;
  }
}
