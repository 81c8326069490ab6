/**
 Tagged data over evbuffers: marshalling into a buffer, and taking frames off its front.
 */
module TagStream {
  import opened Bytes
  import opened EvbufferCore
  import opened EvbufferAppend
  import opened EvbufferDrain
  import opened EvbufferMove
  import opened EvbufferPullup
  import opened TagCodec

  /** A buffer that frames can be read from. */
  ghost predicate Readable(buf: Evbuffer)
    reads buf, buf.foot
  {
    buf.Valid() && |buf.Contents()| <= SSIZE_MAX
  }

  ghost predicate Writable(buf: Evbuffer, n: nat)
    reads buf, buf.foot
  {
    buf.Valid() && !buf.freezeEnd && |buf.Contents()| + n <= SIZE_MAX
  }

  // ---- What the bytes say ----

  datatype Header = Header(tag: nat, len: nat, size: nat)

  /**
   The tag and length at the front, and how many bytes they take. From a buffer whose start is frozen
   the tag is not taken off, so that its bytes are read again as the length.
   */
  function HeaderOf(s: seq<byte>, frozen: bool := false): Option<Header> {
    var t := TagFrom(s, 0);
    if t.None? then None else
      var at := if frozen then 0 else t.value.1;
      var l := IntAt(s, at, 8);
      if l.None? then None else Some(Header(t.value.0, l.value.0, if frozen then 0 else at + l.value.1))
  }

  /** How much of a header is taken off: all of it, or its tag when its length is malformed. */
  function HeaderDrain(s: seq<byte>, frozen: bool := false): nat {
    var t, h := TagFrom(s, 0), HeaderOf(s, frozen);
    if frozen || t.None? then 0 else if h.None? then t.value.1 else h.value.size
  }

  lemma {:induction false} HeaderInside(s: seq<byte>, frozen: bool := false)
    ensures HeaderDrain(s, frozen) <= |s| && (frozen ==> HeaderDrain(s, frozen) == 0)
    ensures TagFrom(s, 0).Some? ==> 0 < TagFrom(s, 0).value.1 <= |s| && (!frozen ==> TagFrom(s, 0).value.1 <= HeaderDrain(s))
    ensures var h := HeaderOf(s, frozen); h.Some? ==>
      h.value.size == HeaderDrain(s, frozen) <= 10 && h.value.tag < TWO_32 && h.value.len < TWO_32
  {
    TagFromBounded(s, 0);
    Powers128();
    if TagFrom(s, 0).Some? {
      IntFits(s, if frozen then 0 else TagFrom(s, 0).value.1, 8);
      Powers16();
    }
  }

  lemma {:induction false} IntFits(s: seq<byte>, off: nat, max: nat)
    ensures var l := IntAt(s, off, max);
      l.Some? ==> l.value.0 < Pow(16, max) && 0 < l.value.1 <= max / 2 + 1 && off + l.value.1 <= |s|
  {
    if off < |s| {
      var n := s[off] / 16 + 1;
      if n <= max && n / 2 + 1 <= |s| - off {
        ValueBounded(s, off, 1, n);
        PowGrows(16, n, max);
      }
    }
  }

  /** The value read at `off` depends on the bytes from there to the last nibble only. */
  lemma {:induction false} ValueElsewhere(s: seq<byte>, off: nat, t: seq<byte>, off': nat, i: nat, n: nat)
    requires off + n / 2 < |s| && off' + n / 2 < |t|
    requires s[off..off + n / 2 + 1] == t[off'..off' + n / 2 + 1]
    ensures Value(s, off, i, n) == Value(t, off', i, n)
    decreases n + 1 - i
  {
    if i <= n {
      ValueElsewhere(s, off, t, off', i + 1, n);
      assert s[off + i / 2] == s[off..off + n / 2 + 1][i / 2];
      assert t[off' + i / 2] == t[off'..off' + n / 2 + 1][i / 2];
    }
  }

  lemma {:induction false} IntAfter(s: seq<byte>, c: nat, max: nat)
    requires c <= |s|
    ensures IntAt(s[c..], 0, max) == IntAt(s, c, max)
  {
    hide Value;
    if c < |s| {
      var n := s[c] / 16 + 1;
      assert s[c..][0] == s[c];
      if n / 2 + 1 <= |s| - c {
        ValueElsewhere(s[c..], 0, s, c, 1, n);
      }
    }
  }

  lemma {:induction false} IntInPrefix(s: seq<byte>, m: nat, off: nat, max: nat)
    requires off < m <= |s| && off + s[off] / 16 / 2 + 1 <= m
    requires off + (s[off] / 16 + 1) / 2 + 1 == m && s[off] / 16 + 1 <= max
    ensures IntAt(s[..m], off, max) == IntAt(s, off, max)
  {
    hide Value;
    ValueElsewhere(s[..m], off, s, off, 1, s[off] / 16 + 1);
  }

  // ---- Reading ----

  /** decode_tag_internal; `behind` says whether it loads the byte behind the five that it pulled up. */
  method DecodeTag(buf: Evbuffer, dodrain: bool) returns (count: int, tag: nat, ghost behind: bool)
    requires Readable(buf)
    modifies buf, buf.foot
    ensures Readable(buf) && buf.freezeEnd == old(buf.freezeEnd) && fresh(buf.foot - old(buf.foot))
    ensures buf.freezeStart == old(buf.freezeStart)
    ensures var t := TagFrom(old(buf.Contents()), 0);
      if t.None? then count == -1 && tag == 0 && buf.Contents() == old(buf.Contents())
      else
        && tag == t.value.0 && count == t.value.1 <= |old(buf.Contents())|
        && buf.Contents() == old(buf.Contents())[if dodrain && !old(buf.freezeStart) then count else 0..]
    ensures behind <==> LooksBehind(old(buf.Contents()))
  {
    hide Evbuffer.Valid, Evbuffer.Contents, TagFrom, Evbuffer.Shape;
    ghost var s := buf.Contents();
    ValidParts(buf);
    TagFromBounded(s, 0);
    var len := buf.totalLen;
    var want := if len < 5 then len else 5;
    TagInFive(s, want, 0);
    assert s[0..] == s;
    var data := PullFront(buf, want);
    var t, sixth := ReadTag(data, len);
    behind := sixth;
    if t.None? {
      return -1, 0, behind;
    }
    if dodrain {
      var _ := Drain(buf, t.value.1);
    }
    return t.value.1, t.value.0, behind;
  }

  /** decode_int_internal for `max` 8, decode_int64_internal for `max` 16 */
  method DecodeInt(buf: Evbuffer, offset: nat, max: nat) returns (number: Option<(nat, nat)>)
    requires Readable(buf) && (max == 8 || max == 16) && offset <= INT_MAX
    modifies buf`first, buf`last, buf`lastWithDataPred, buf`totalLen, buf`view, buf`foot, buf.foot
    ensures Readable(buf) && buf.Contents() == old(buf.Contents()) && fresh(buf.foot - old(buf.foot))
    ensures number == IntAt(buf.Contents(), offset, max) && buf.freezeStart == old(buf.freezeStart)
  {
    hide Evbuffer.Valid, Evbuffer.Contents, Evbuffer.Shape, Value;
    ghost var s := buf.Contents();
    ValidParts(buf);
    var len := buf.totalLen - offset;
    if len <= 0 {
      return None;
    }
    var data := PullFront(buf, offset + 1);
    assert data[offset] == s[offset];
    var nibbles := data[offset] / 16 + 1;
    if nibbles > max || nibbles / 2 + 1 > len {
      return None;
    }
    len := nibbles / 2 + 1;
    data := PullFront(buf, offset + len);
    IntInPrefix(s, offset + len, offset, max);
    number := ReadInt(data, offset, max);
  }

  /** The first `n` bytes, pulled up and read. */
  method PullFront(buf: Evbuffer, n: nat) returns (data: seq<byte>)
    requires Readable(buf) && n <= |buf.Contents()| && n <= MAX_ALLOC
    modifies buf`first, buf`last, buf`lastWithDataPred, buf`totalLen, buf`view, buf`foot, buf.foot
    ensures Readable(buf) && buf.Contents() == old(buf.Contents()) && fresh(buf.foot - old(buf.foot))
    ensures data == buf.Contents()[..n] && buf.freezeStart == old(buf.freezeStart)
  {
    hide Evbuffer.Valid, Evbuffer.Contents, Evbuffer.Shape;
    ValidParts(buf);
    var region := Pullup(buf, n);
    data := if region.At? then region.memory[region.at..region.at + n] else [];
  }

  /** evtag_decode_int, evtag_decode_int64 */
  method EvtagDecodeInt(buf: Evbuffer, max: nat) returns (result: int, number: nat)
    requires Readable(buf) && (max == 8 || max == 16)
    modifies buf, buf.foot
    ensures Readable(buf) && buf.freezeEnd == old(buf.freezeEnd) && fresh(buf.foot - old(buf.foot))
    ensures buf.freezeStart == old(buf.freezeStart)
    ensures var l := IntAt(old(buf.Contents()), 0, max);
      if l.None? then result == -1 && buf.Contents() == old(buf.Contents())
      else
        && result == 0 && number == l.value.0 && l.value.1 <= |old(buf.Contents())|
        && buf.Contents() == old(buf.Contents())[if old(buf.freezeStart) then 0 else l.value.1..]
  {
    hide Evbuffer.Valid, Evbuffer.Contents, IntAt, Evbuffer.Shape;
    ghost var s := buf.Contents();
    ValidParts(buf);
    IntFits(s, 0, max);
    var res := DecodeInt(buf, 0, max);
    if res.None? {
      return -1, 0;
    }
    var _ := Drain(buf, res.value.1);
    return 0, res.value.0;
  }

  /** evtag_unmarshal_header: a payload length that does not fit an int comes out negative. */
  method UnmarshalHeader(buf: Evbuffer) returns (result: int, tag: nat)
    requires Readable(buf)
    modifies buf, buf.foot
    ensures Readable(buf) && buf.freezeEnd == old(buf.freezeEnd) && fresh(buf.foot - old(buf.foot))
    ensures buf.freezeStart == old(buf.freezeStart)
    ensures var drained := HeaderDrain(old(buf.Contents()), old(buf.freezeStart));
      drained <= |old(buf.Contents())| && buf.Contents() == old(buf.Contents())[drained..]
    ensures var h := HeaderOf(old(buf.Contents()), old(buf.freezeStart));
      if h.None? || |buf.Contents()| < h.value.len then result == -1
      else result == ToInt(h.value.len) && tag == h.value.tag
  {
    hide Evbuffer.Valid, Evbuffer.Contents, IntAt, TagFrom, Evbuffer.Shape, ToInt;
    ghost var s := buf.Contents();
    HeaderInside(s, buf.freezeStart);
    assert s[0..] == s;
    var count;
    ghost var behind;
    count, tag, behind := DecodeTag(buf, true);
    if count == -1 {
      return -1, tag;
    }
    IntAfter(s, count, 8);
    var res, len := EvtagDecodeInt(buf, 8);
    if res == -1 {
      return -1, tag;
    }
    ValidParts(buf);
    if buf.totalLen < len {
      return -1, tag;
    }
    return ToInt(len), tag;
  }

  // ---- Writing ----

  /** evtag_encode_tag */
  method EncodeTag(buf: Evbuffer, tag: nat) returns (bytes: int)
    requires tag < TWO_32 && Writable(buf, 5)
    modifies buf, buf.foot
    ensures Writable(buf, 0) && buf.freezeStart == old(buf.freezeStart) && fresh(buf.foot - old(buf.foot))
    ensures buf.Contents() == old(buf.Contents()) + TagBytes(tag) && bytes == |TagBytes(tag)| <= 5
  {
    hide Evbuffer.Valid, Evbuffer.Contents, TagBytes;
    TagSize(tag, 0);
    Powers128();
    var data := BuildTag(tag);
    var _ := Add(buf, data);
    return |data|;
  }

  lemma {:induction false} TagSize(tag: nat, i: nat)
    requires i <= 4 && tag < Pow(128, 4 - i) * 16
    ensures |TagBytes(tag)| <= 5 - i
    decreases tag
  {
    Powers128();
    if tag >= 128 {
      TagSize(tag / 128, i + 1);
    }
  }

  /** evtag_encode_int for `width` 4, evtag_encode_int64 for `width` 8 */
  method EvtagEncodeInt(buf: Evbuffer, number: nat, width: nat)
    requires (width == 4 || width == 8) && number < Pow(16, 2 * width) && Writable(buf, width + 1)
    modifies buf, buf.foot
    ensures Writable(buf, 0) && buf.freezeStart == old(buf.freezeStart) && fresh(buf.foot - old(buf.foot))
    ensures Written(number) <= 16 && |IntBytes(number)| <= width + 1
    ensures buf.Contents() == old(buf.Contents()) + IntBytes(number)
  {
    hide Evbuffer.Valid, Evbuffer.Contents, IntBytes, Pow;
    var data := new byte[width + 1];
    var len := EncodeInt(data, 0, number, width);
    var _ := Add(buf, data[..len]);
    assert data[0..0 + len] == data[..len];
  }

  datatype Frame = Frame(tag: nat, payload: seq<byte>)

  predicate Encodable(f: Frame) {
    f.tag < TWO_32 && |f.payload| < TWO_32
  }

  function FrameBytes(f: Frame): (b: seq<byte>)
    requires Encodable(f)
    ensures |b| <= 10 + |f.payload|
  {
    LengthFits(f);
    TagBytes(f.tag) + IntBytes(|f.payload|) + f.payload
  }

  lemma {:induction false} LengthFits(f: Frame)
    requires Encodable(f)
    ensures Written(|f.payload|) <= 8 && |TagBytes(f.tag)| <= 5
  {
    FitsNibbles(|f.payload|, 8);
    Powers16();
    Powers128();
    TagSize(f.tag, 0);
  }

  /** evtag_marshal */
  method Marshal(buf: Evbuffer, tag: nat, data: seq<byte>)
    requires Encodable(Frame(tag, data)) && Writable(buf, 10 + |data|)
    modifies buf, buf.foot
    ensures Writable(buf, 0) && buf.freezeStart == old(buf.freezeStart) && fresh(buf.foot - old(buf.foot))
    ensures Written(|data|) <= 16
    ensures buf.Contents() == old(buf.Contents()) + FrameBytes(Frame(tag, data))
    ensures buf.Contents() == old(buf.Contents()) + (TagBytes(tag) + IntBytes(|data|) + data)
  {
    hide Evbuffer.Valid, Evbuffer.Contents, IntBytes, TagBytes, Pow;
    Powers16();
    ghost var s := buf.Contents();
    var _ := EncodeTag(buf, tag);
    EvtagEncodeInt(buf, |data|, 4);
    var _ := Add(buf, data);
    assert s + TagBytes(tag) + IntBytes(|data|) + data == s + (TagBytes(tag) + IntBytes(|data|) + data);
  }

  /** evtag_marshal_buffer: the length that is written is cut down to 32 bits. */
  method MarshalBuffer(buf: Evbuffer, tag: nat, data: Evbuffer)
    requires tag < TWO_32 && data.Valid() && !data.freezeStart && Apart(buf, data)
    requires Writable(buf, 10 + |data.Contents()|)
    modifies buf, buf.foot, data, data.foot
    ensures Writable(buf, 0) && data.Valid() && data.Contents() == []
    ensures Written(|old(data.Contents())| % TWO_32) <= 16
    ensures buf.Contents() == old(buf.Contents()) + TagBytes(tag) + IntBytes(|old(data.Contents())| % TWO_32) + old(data.Contents())
    ensures |old(data.Contents())| < TWO_32 ==> buf.Contents() == old(buf.Contents()) + FrameBytes(Frame(tag, old(data.Contents())))
  {
    hide Evbuffer.Valid, Evbuffer.Contents, IntBytes, TagBytes, Pow, Evbuffer.Shape;
    Powers16();
    ghost var s, d := buf.Contents(), data.Contents();
    ValidParts(data);
    var len := data.totalLen % TWO_32;
    var _ := EncodeTag(buf, tag);
    EvtagEncodeInt(buf, len, 4);
    var _ := AddBuffer(buf, data);
    assert s + TagBytes(tag) + IntBytes(len) + d == s + (TagBytes(tag) + IntBytes(len) + d);
    assert s + TagBytes(tag) + IntBytes(len) + [] == s + TagBytes(tag) + IntBytes(len);
  }

  /** An integer wrapped up as the payload of a frame. */
  function IntFrame(tag: nat, number: nat): (f: Frame)
    requires Written(number) <= 16
  {
    Frame(tag, IntBytes(number))
  }

  /** evtag_marshal_int, evtag_marshal_int64 */
  method MarshalInt(buf: Evbuffer, tag: nat, number: nat, width: nat)
    requires (width == 4 || width == 8) && number < Pow(16, 2 * width) && tag < TWO_32 && Writable(buf, 19)
    modifies buf, buf.foot
    ensures Writable(buf, 0) && fresh(buf.foot - old(buf.foot))
    ensures Written(number) <= 16 && buf.Contents() == old(buf.Contents()) + FrameBytes(IntFrame(tag, number))
  {
    hide Evbuffer.Valid, Evbuffer.Contents, IntBytes, TagBytes, Pow;
    Powers16();
    ghost var s := buf.Contents();
    var data := new byte[width + 1];
    var len := EncodeInt(data, 0, number, width);
    var payload := data[..len];
    assert data[0..0 + len] == payload;
    var _ := EncodeTag(buf, tag);
    EvtagEncodeInt(buf, len, 4);
    var _ := Add(buf, payload);
    assert s + TagBytes(tag) + IntBytes(len) + payload == s + (TagBytes(tag) + IntBytes(len) + payload);
  }

  /** The seconds and microseconds of a time value, each cut down to 32 bits. */
  function TimePayload(sec: int, usec: int): (b: seq<byte>)
    ensures |b| <= 10
  {
    TimeFits(sec);
    TimeFits(usec);
    IntBytes(sec % TWO_32) + IntBytes(usec % TWO_32)
  }

  lemma {:induction false} TimeFits(x: int)
    ensures Written(x % TWO_32) <= 8
  {
    FitsNibbles(x % TWO_32, 8);
    Powers16();
  }

  /** evtag_marshal_timeval */
  method MarshalTimeval(buf: Evbuffer, tag: nat, sec: int, usec: int)
    requires tag < TWO_32 && Writable(buf, 20)
    modifies buf, buf.foot
    ensures Writable(buf, 0) && fresh(buf.foot - old(buf.foot))
    ensures buf.Contents() == old(buf.Contents()) + FrameBytes(Frame(tag, TimePayload(sec, usec)))
  {
    hide Evbuffer.Valid, Evbuffer.Contents, IntBytes, TagBytes, Pow, FrameBytes;
    Powers16();
    TimeFits(sec);
    TimeFits(usec);
    var data := new byte[10];
    var len := EncodeInt(data, 0, sec % TWO_32, 4);
    ghost var first := data[..len];
    assert data[0..0 + len] == first;
    var more := EncodeInt(data, len, usec % TWO_32, 4);
    assert data[..len + more] == data[..len] + data[len..len + more];
    Marshal(buf, tag, data[..len + more]);
  }
}
