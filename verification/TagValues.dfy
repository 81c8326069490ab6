/**
 Integers, strings, fixed-size data and time values as payloads of frames.
 */
module TagValues {
  import opened Bytes
  import opened EvbufferCore
  import opened EvbufferDrain
  import opened TagCodec
  import opened TagStream
  import opened TagFrames

  /** What evtag_unmarshal_int (max 8) or evtag_unmarshal_int64 (max 16) makes of the bytes at the front. */
  function IntOutcome(s: seq<byte>, needTag: nat, max: nat, frozen: bool := false): Outcome<nat> {
    HeaderInside(s, frozen);
    var t, h := TagFrom(s, 0), HeaderOf(s, frozen);
    if t.None? then Outcome(-1, 0, s)
    else if t.value.0 != needTag then Outcome(-1, 0, s[if frozen then 0 else t.value.1..])
    else if !Complete(s, frozen) then Outcome(-1, 0, s[HeaderDrain(s, frozen)..])
    else
      var body := s[h.value.size..];
      var i, rest := IntAt(body, 0, max), DrainedBy(body, h.value.len, frozen);
      if i.None? || i.value.1 > h.value.len then Outcome(-1, 0, rest) else Outcome(i.value.1, i.value.0, rest)
  }

  /** evtag_unmarshal_int, evtag_unmarshal_int64 */
  method UnmarshalInt(buf: Evbuffer, needTag: nat, max: nat) returns (result: int, number: nat)
    requires Readable(buf) && (max == 8 || max == 16)
    modifies buf, buf.foot
    ensures Readable(buf) && fresh(buf.foot - old(buf.foot))
    ensures var o := IntOutcome(old(buf.Contents()), needTag, max, old(buf.freezeStart));
      result == o.result && buf.Contents() == o.rest && (result >= 0 ==> number == o.value)
  {
    hide Evbuffer.Valid, Evbuffer.Contents, TagFrom, IntAt, DrainedBy, Readable;
    ghost var s := buf.Contents();
    HeaderInside(s, buf.freezeStart);
    number := 0;
    var count, tag, _ := DecodeTag(buf, true);
    if count == -1 {
      return -1, 0;
    }
    if needTag != tag {
      return -1, 0;
    }
    IntAfter(s, count, 8);
    var res, len := EvtagDecodeInt(buf, 8);
    if res == -1 {
      return -1, 0;
    }
    LengthIs(buf);
    ghost var body := buf.Contents();
    assert body == s[HeaderDrain(s, buf.freezeStart)..];
    if buf.totalLen < len {
      return -1, 0;
    }
    var i := TakeInt(buf, len, max);
    if i.None? || i.value.1 > len {
      return -1, 0;
    }
    return i.value.1, i.value.0;
  }

  lemma LengthIs(buf: Evbuffer)
    requires Readable(buf)
    ensures buf.totalLen == |buf.Contents()|
  {
  }

  /** Read the integer at the front, and take off the payload that it is said to fill. */
  method TakeInt(buf: Evbuffer, len: nat, max: nat) returns (i: Option<(nat, nat)>)
    requires Readable(buf) && (max == 8 || max == 16)
    modifies buf, buf.foot
    ensures Readable(buf) && fresh(buf.foot - old(buf.foot))
    ensures i == IntAt(old(buf.Contents()), 0, max)
    ensures buf.Contents() == DrainedBy(old(buf.Contents()), len, old(buf.freezeStart))
  {
    hide Evbuffer.Valid, Evbuffer.Contents, IntAt, DrainedBy;
    i := DecodeInt(buf, 0, max);
    DrainInt(buf, len);
  }

  /** Every 32-bit, or 64-bit, integer comes back from its frame, and the bytes behind it are left. */
  lemma IntRoundTrip(tag: nat, number: nat, max: nat, rest: seq<byte>)
    requires tag < TWO_32 && (max == 8 || max == 16) && number < Pow(16, max)
    ensures Written(number) <= 16
    ensures IntOutcome(FrameBytes(IntFrame(tag, number)) + rest, tag, max) == Outcome(|IntBytes(number)|, number, rest)
  {
    hide HeaderOf, HeaderDrain, FrameBytes, TagFrom, IntAt, Pow, IntBytes;
    FitsNibbles(number, max);
    var f := IntFrame(tag, number);
    var s := FrameBytes(f) + rest;
    HeaderComesBack(f, rest);
    HeaderInside(s);
    HeaderTag(s);
    IntComesBack([], number, rest, max);
    assert [] + IntBytes(number) + rest == f.payload + rest;
    FrameCut(s, HeaderOf(s).value.size, f.payload, rest);
    assert (f.payload + rest)[|f.payload|..] == rest;
  }

  lemma HeaderTag(s: seq<byte>)
    ensures HeaderOf(s).Some? ==> TagFrom(s, 0).Some? && HeaderOf(s).value.tag == TagFrom(s, 0).value.0
  {
  }

  /**
   Any frame with the tag is taken off; the answer is the integer at the beginning of its payload,
   if there is one that does not go on behind it.
   */
  lemma IntOfFrame(f: Frame, rest: seq<byte>, max: nat)
    requires Encodable(f)
    ensures var i := IntAt(f.payload + rest, 0, max);
      IntOutcome(FrameBytes(f) + rest, f.tag, max) ==
        if i.Some? && i.value.1 <= |f.payload| then Outcome(i.value.1, i.value.0, rest) else Outcome(-1, 0, rest)
  {
    hide HeaderOf, HeaderDrain, FrameBytes, TagFrom, IntAt;
    var s := FrameBytes(f) + rest;
    HeaderComesBack(f, rest);
    HeaderInside(s);
    HeaderTag(s);
    FrameCut(s, HeaderOf(s).value.size, f.payload, rest);
    assert (f.payload + rest)[|f.payload|..] == rest;
  }

  /** Any two integers in a payload make a time value, if they do not go on behind it. */
  lemma TimeOfFrame(f: Frame, rest: seq<byte>)
    requires Encodable(f) && |f.payload| <= INT_MAX
    ensures var body := f.payload + rest;
      var a := IntAt(body, 0, 8);
      var b := if a.None? then None else IntAt(body, a.value.1, 8);
      TimeOutcome(FrameBytes(f) + rest, f.tag) ==
        if b.Some? && a.value.1 + b.value.1 <= |f.payload| then Outcome(0, Timeval(a.value.0, b.value.0), rest)
        else Outcome(-1, Timeval(0, 0), rest)
  {
    hide HeaderOf, HeaderDrain, FrameBytes, TagFrom, IntAt;
    var s := FrameBytes(f) + rest;
    HeaderComesBack(f, rest);
    HeaderInside(s);
    assert (f.payload + rest)[|f.payload|..] == rest;
  }

  /**
   A frame with another tag is refused. Looking for an integer only the tag is taken off, looking for
   data the header, and looking for a time value the whole frame.
   */
  lemma OtherTagRefused(f: Frame, rest: seq<byte>, needTag: nat, max: nat, fixed: Option<nat>)
    requires Encodable(f) && f.tag != needTag
    ensures Written(|f.payload|) <= 16
    ensures var s := FrameBytes(f) + rest;
      && IntOutcome(s, needTag, max) == Outcome(-1, 0, IntBytes(|f.payload|) + f.payload + rest)
      && DataOutcome(s, needTag, fixed) == Outcome(-1, [], f.payload + rest)
      && StringOutcome(s, needTag) == Some(Outcome(-1, [], f.payload + rest))
      && (|f.payload| <= INT_MAX ==> TimeOutcome(s, needTag) == Outcome(-1, Timeval(0, 0), rest))
  {
    hide HeaderOf, HeaderDrain, IntOutcome, FrameBytes, IntAt, DrainedBy;
    var s := FrameBytes(f) + rest;
    LengthFits(f);
    OtherTagForInt(f, rest, needTag, max);
    HeaderComesBack(f, rest);
    HeaderInside(s);
    if |f.payload| <= INT_MAX {
      PayloadDrained(f.payload, rest);
    }
  }

  lemma PayloadDrained(payload: seq<byte>, rest: seq<byte>)
    requires |payload| <= INT_MAX
    ensures DrainedBy(payload + rest, ToInt(|payload|)) == rest && ToInt(|payload|) >= 0
  {
    assert (payload + rest)[|payload|..] == rest;
  }

  lemma OtherTagForInt(f: Frame, rest: seq<byte>, needTag: nat, max: nat)
    requires Encodable(f) && f.tag != needTag && Written(|f.payload|) <= 16
    ensures IntOutcome(FrameBytes(f) + rest, needTag, max) == Outcome(-1, 0, IntBytes(|f.payload|) + f.payload + rest)
  {
    hide HeaderOf, HeaderDrain, TagFrom, IntAt, TagBytes, IntBytes, Complete;
    var s, l := FrameBytes(f) + rest, IntBytes(|f.payload|);
    Powers128();
    TagComesBack([], f.tag, l + f.payload + rest);
    assert s == [] + TagBytes(f.tag) + (l + f.payload + rest);
    HeaderInside(s);
  }

  /** A frame that is not all there is refused; what could be read of its header is gone. */
  lemma PrefixHasNoValue(f: Frame, k: nat, max: nat, fixed: Option<nat>)
    requires Encodable(f) && k < |FrameBytes(f)|
    ensures var s := FrameBytes(f)[..k];
      var rest := if HeaderDrain(s) <= k then s[HeaderDrain(s)..] else s;
      && IntOutcome(s, f.tag, max) == Outcome(-1, 0, rest)
      && DataOutcome(s, f.tag, fixed) == Outcome(-1, [], rest)
      && StringOutcome(s, f.tag) == Some(Outcome(-1, [], rest))
      && TimeOutcome(s, f.tag) == Outcome(-1, Timeval(0, 0), rest)
  {
    hide HeaderOf, FrameBytes, TagFrom, IntAt;
    var s := FrameBytes(f)[..k];
    PrefixIsRefused(f, k);
    HeaderInside(s);
    PrefixTag(f, k);
    assert s[0..] == s;
  }

  lemma PrefixTag(f: Frame, k: nat)
    requires Encodable(f) && k < |FrameBytes(f)|
    ensures var t := TagFrom(FrameBytes(f)[..k], 0); t.Some? ==> t.value.0 == f.tag
  {
    hide TagBytes, IntBytes, TagFrom;
    LengthFits(f);
    Powers128();
    var s, a := FrameBytes(f)[..k], TagBytes(f.tag);
    if k < |a| {
      assert s == a[..k];
      BrokenTag(f.tag, k);
    } else {
      assert s == [] + a + s[|a|..];
      TagComesBack([], f.tag, s[|a|..]);
    }
  }

  /** evtag_unmarshal_fixed when `fixed` says how long, else evtag_unmarshal_string. */
  function DataOutcome(s: seq<byte>, needTag: nat, fixed: Option<nat>, frozen: bool := false): Outcome<seq<byte>> {
    HeaderInside(s, frozen);
    var h, body := HeaderOf(s, frozen), s[HeaderDrain(s, frozen)..];
    if !Complete(s, frozen) || ToInt(h.value.len) < 0 || h.value.tag != needTag || (fixed.Some? && h.value.len != fixed.value)
    then Outcome(-1, [], body)
    else Outcome(0, if frozen then [] else body[..h.value.len], DrainedBy(body, h.value.len, frozen))
  }

  /** evtag_unmarshal_fixed */
  method UnmarshalFixed(buf: Evbuffer, needTag: nat, len: nat) returns (result: int, data: seq<byte>)
    requires Readable(buf)
    modifies buf, buf.foot
    ensures Readable(buf) && fresh(buf.foot - old(buf.foot))
    ensures Outcome(result, data, buf.Contents()) == DataOutcome(old(buf.Contents()), needTag, Some(len), old(buf.freezeStart))
  {
    hide Evbuffer.Valid, Evbuffer.Contents, HeaderOf, HeaderDrain;
    ghost var s := buf.Contents();
    HeaderInside(s, buf.freezeStart);
    var tagLen, tag := UnmarshalHeader(buf);
    if tagLen < 0 || tag != needTag {
      return -1, [];
    }
    if tagLen != len {
      return -1, [];
    }
    ghost var body := buf.Contents();
    var _, got := Remove(buf, len);
    assert !buf.freezeStart ==> body[..len] == got && body[len..] == buf.Contents();
    return 0, got;
  }

  /** For a string of INT_MAX bytes there is none: the int sum of its length and one overflows, so anything can happen. */
  function StringOutcome(s: seq<byte>, needTag: nat, frozen: bool := false): Option<Outcome<seq<byte>>> {
    var h := HeaderOf(s, frozen);
    if Complete(s, frozen) && h.value.len == INT_MAX && h.value.tag == needTag then None
    else Some(DataOutcome(s, needTag, None, frozen))
  }

  /** evtag_unmarshal_string (memory for a negative length cannot be had) */
  method UnmarshalString(buf: Evbuffer, needTag: nat) returns (overflows: bool, result: int, data: seq<byte>)
    requires Readable(buf)
    modifies buf, buf.foot
    ensures Readable(buf) && fresh(buf.foot - old(buf.foot))
    ensures StringOutcome(old(buf.Contents()), needTag, old(buf.freezeStart)) ==
      if overflows then None else Some(Outcome(result, data, buf.Contents()))
  {
    hide Evbuffer.Valid, Evbuffer.Contents, HeaderOf, HeaderDrain;
    ghost var s := buf.Contents();
    HeaderInside(s, buf.freezeStart);
    var tagLen, tag := UnmarshalHeader(buf);
    if tagLen == -1 || tag != needTag {
      return false, -1, [];
    }
    if tagLen + 1 > INT_MAX {
      return true, -1, [];
    }
    if tagLen < 0 {
      return false, -1, [];
    }
    ghost var body := buf.Contents();
    var _, got := Remove(buf, tagLen);
    assert !buf.freezeStart ==> body[..tagLen] == got && body[tagLen..] == buf.Contents();
    return false, 0, got;
  }

  /**
   Data comes back from its frame just when its size is asked for and fits an int; a string comes back
   exactly when it is shorter than the largest int.
   */
  lemma DataRoundTrip(f: Frame, rest: seq<byte>)
    requires Encodable(f)
    ensures StringOutcome(FrameBytes(f) + rest, f.tag) == Some(Outcome(0, f.payload, rest)) <==> |f.payload| < INT_MAX
    ensures forall n: nat :: (DataOutcome(FrameBytes(f) + rest, f.tag, Some(n)) ==
      if n == |f.payload| <= INT_MAX then Outcome(0, f.payload, rest) else Outcome(-1, [], f.payload + rest))
  {
    hide HeaderOf, HeaderDrain, FrameBytes;
    var s := FrameBytes(f) + rest;
    HeaderComesBack(f, rest);
    HeaderInside(s);
    assert (f.payload + rest)[..|f.payload|] == f.payload && (f.payload + rest)[|f.payload|..] == rest;
  }

  datatype Timeval = Timeval(sec: int, usec: int)

  /** What evtag_unmarshal_timeval makes of the bytes at the front. */
  function TimeOutcome(s: seq<byte>, needTag: nat, frozen: bool := false): Outcome<Timeval> {
    HeaderInside(s, frozen);
    var h, body := HeaderOf(s, frozen), s[HeaderDrain(s, frozen)..];
    if !Complete(s, frozen) || ToInt(h.value.len) == -1 then Outcome(-1, Timeval(0, 0), body)
    else
      var len := ToInt(h.value.len);
      var a := IntAt(body, 0, 8);
      if h.value.tag != needTag || a.None? then Outcome(-1, Timeval(0, 0), DrainedBy(body, len, frozen))
      else
        var b := IntAt(body, a.value.1, 8);
        if b.None? || a.value.1 + b.value.1 > len then Outcome(-1, Timeval(0, 0), DrainedBy(body, len, frozen))
        else Outcome(0, Timeval(a.value.0, b.value.0), DrainedBy(body, len, frozen))
  }

  /** evtag_unmarshal_timeval */
  method UnmarshalTimeval(buf: Evbuffer, needTag: nat) returns (result: int, tv: Timeval)
    requires Readable(buf)
    modifies buf, buf.foot
    ensures Readable(buf) && fresh(buf.foot - old(buf.foot))
    ensures var o := TimeOutcome(old(buf.Contents()), needTag, old(buf.freezeStart));
      result == o.result && buf.Contents() == o.rest && (result == 0 ==> tv == o.value)
  {
    hide Evbuffer.Valid, Evbuffer.Contents, HeaderOf, HeaderDrain, IntAt, DrainedBy;
    ghost var s := buf.Contents();
    HeaderInside(s, buf.freezeStart);
    tv := Timeval(0, 0);
    result := -1;
    var len, tag := UnmarshalHeader(buf);
    if len == -1 {
      return;
    }
    ghost var body := buf.Contents();
    IntFits(body, 0, 8);
    if tag == needTag {
      var a := DecodeInt(buf, 0, 8);
      if a.Some? {
        var b := DecodeInt(buf, a.value.1, 8);
        if b.Some? {
          tv := Timeval(a.value.0, b.value.0);
          if a.value.1 + b.value.1 <= len {
            result := 0;
          }
        }
      }
    }
    DrainInt(buf, len);
  }

  /** A time value comes back cut down to 32 bits a field: it is the same exactly when both fields fit. */
  lemma TimevalRoundTrip(tag: nat, sec: int, usec: int, rest: seq<byte>)
    requires tag < TWO_32
    ensures var o := TimeOutcome(FrameBytes(Frame(tag, TimePayload(sec, usec))) + rest, tag);
      && o == Outcome(0, Timeval(sec % TWO_32, usec % TWO_32), rest)
      && (o.value == Timeval(sec, usec) <==> 0 <= sec < TWO_32 && 0 <= usec < TWO_32)
  {
    hide HeaderOf, HeaderDrain, FrameBytes, TagFrom, IntAt, IntBytes;
    TimeFits(sec);
    TimeFits(usec);
    var a, b := IntBytes(sec % TWO_32), IntBytes(usec % TWO_32);
    var f := Frame(tag, TimePayload(sec, usec));
    var s := FrameBytes(f) + rest;
    HeaderComesBack(f, rest);
    HeaderInside(s);
    IntComesBack([], sec % TWO_32, b + rest, 8);
    IntComesBack(a, usec % TWO_32, rest, 8);
    assert f.payload + rest == [] + a + (b + rest) == a + b + rest;
    assert (f.payload + rest)[|f.payload|..] == rest;
  }
}
