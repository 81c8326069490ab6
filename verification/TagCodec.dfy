/**
 The wire format of tagged data: tags in groups of seven bits and integers in nibbles, both with
 the least significant group first, as functions on byte strings and as the code computes them.
 */
module TagCodec {
  import opened Bytes

  // ---- Tags ----

  /** A tag: seven bits a byte, with the high bit set on all bytes but the last. */
  function TagBytes(tag: nat): (b: seq<byte>)
    ensures 0 < |b|
  {
    if tag < 128 then [tag] else [tag % 128 + 128] + TagBytes(tag / 128)
  }

  /** evtag_encode_tag, the bytes it builds. */
  method BuildTag(tag0: nat) returns (data: seq<byte>)
    ensures data == TagBytes(tag0)
  {
    var tag := tag0;
    data := [];
    while true
      invariant data + TagBytes(tag) == TagBytes(tag0)
      decreases tag
    {
      var lower := tag % 128;
      var rest := tag / 128;
      if rest != 0 {
        lower := lower + 128;
      }
      assert data + ([lower] + TagBytes(rest)) == (data + [lower]) + TagBytes(rest);
      data := data + [lower];
      if rest == 0 {
        return;
      }
      tag := rest;
    }
  }

  /** The tag whose bytes start at `i`, the `i` bytes before being its lower groups; and where it ends. */
  function TagFrom(s: seq<byte>, i: nat): Option<(nat, nat)>
    decreases |s| - i
  {
    if i >= |s| || i > 4 || (i == 4 && s[i] % 128 > 15) then None
    else if s[i] < 128 then Some((s[i], i + 1))
    else
      var rest := TagFrom(s, i + 1);
      if rest.None? then None else Some((s[i] - 128 + 128 * rest.value.0, rest.value.1))
  }

  function Pow(b: nat, e: nat): (p: nat)
    ensures b > 0 ==> p > 0
  {
    if e == 0 then 1 else b * Pow(b, e - 1)
  }

  /** How large what is read from group `i` on can be. */
  lemma {:induction false} TagFromBounded(s: seq<byte>, i: nat)
    ensures var t := TagFrom(s, i);
      t.Some? ==> i <= 4 && i < t.value.1 <= |s| && t.value.1 <= 5 && t.value.0 < Pow(128, 4 - i) * 16
    decreases |s| - i
  {
    if i < 4 && i < |s| && s[i] >= 128 {
      TagFromBounded(s, i + 1);
    }
    Powers128();
  }

  lemma Powers128()
    ensures Pow(128, 0) == 1 && Pow(128, 1) == 128 && Pow(128, 2) == 0x4000
    ensures Pow(128, 3) == 0x20_0000 && Pow(128, 4) == 0x1000_0000 && Pow(128, 5) == 0x8_0000_0000
  {
    assert Pow(128, 2) == 128 * Pow(128, 1);
    assert Pow(128, 3) == 128 * Pow(128, 2);
    assert Pow(128, 4) == 128 * Pow(128, 3);
    assert Pow(128, 5) == 128 * Pow(128, 4);
  }

  /**
   The loop of decode_tag_internal goes on to a sixth byte, which was not pulled up: five bytes with
   the high bit set, of which the last would still fit, and more behind them.
   */
  predicate LooksBehind(s: seq<byte>) {
    |s| >= 6 && s[0] >= 128 && s[1] >= 128 && s[2] >= 128 && s[3] >= 128 && 128 <= s[4] <= 143
  }

  /** What it finds there does not matter: there is no such tag. */
  lemma BehindIsNoTag(s: seq<byte>)
    ensures LooksBehind(s) ==> TagFrom(s, 0).None?
    ensures LooksBehind([128, 128, 128, 128, 128, 0])
  {
    if LooksBehind(s) {
      assert TagFrom(s, 5).None? && TagFrom(s, 4).None? && TagFrom(s, 3).None?;
      assert TagFrom(s, 2).None? && TagFrom(s, 1).None?;
    }
  }

  /**
   The loop of decode_tag_internal, on a 32-bit number: `s` is what was pulled up of `len` bytes, and
   `behind` whether the byte behind that is loaded.
   */
  method ReadTag(s: seq<byte>, len: nat) returns (tag: Option<(nat, nat)>, behind: bool)
    requires |s| == Min(len, 5)
    ensures tag == TagFrom(s, 0)
    ensures behind <==> len > 5 && LooksBehind(s + [0])
  {
    hide TagFrom, Higher, Pow;
    var number: nat, count: nat := 0, 0;
    HigherStart(s);
    while count < len
      invariant count <= |s| && (count <= 4 ==> number < Pow(128, count))
      invariant TagFrom(s, 0) == Higher(number, Pow(128, count), TagFrom(s, count))
      invariant forall i :: 0 <= i < count ==> s[i] >= 128 && (i == 4 ==> s[i] <= 143)
    {
      if count == |s| {
        HigherEnd(number, Pow(128, count), s);
        return None, true;
      }
      HigherStep(number, Pow(128, count), s, count);
      var lower := s[count];
      if count >= 4 && lower % 128 > 15 {
        return None, false;
      }
      StepFits(number, count, lower % 128);
      NoWrap(number + Pow(128, count) * (lower % 128));
      number := (number + Pow(128, count) * (lower % 128)) % TWO_32;
      count := count + 1;
      if lower < 128 {
        return Some((number, count)), false;
      }
    }
    HigherEnd(number, Pow(128, count), s);
    return None, false;
  }

  lemma NoWrap(n: nat)
    ensures n < TWO_32 ==> n % TWO_32 == n
  {
  }

  lemma HigherStart(s: seq<byte>)
    ensures TagFrom(s, 0) == Higher(0, Pow(128, 0), TagFrom(s, 0)) && Pow(128, 0) == 1
  {
  }

  lemma HigherEnd(number: nat, weight: nat, s: seq<byte>)
    ensures Higher(number, weight, TagFrom(s, |s|)) == None
  {
  }

  lemma StepFits(number: nat, i: nat, lower: nat)
    requires i <= 4 && number < Pow(128, i) && lower < 128 && (i == 4 ==> lower <= 15)
    ensures number + Pow(128, i) * lower < TWO_32
    ensures i < 4 ==> number + Pow(128, i) * lower < Pow(128, i + 1)
    ensures Pow(128, i + 1) == Pow(128, i) * 128
  {
    hide Pow;
    Powers128();
  }

  /** A number continued by what the higher groups say. */
  function Higher(number: nat, weight: nat, rest: Option<(nat, nat)>): Option<(nat, nat)> {
    if rest.None? then None else Some((number + weight * rest.value.0, rest.value.1))
  }

  lemma HigherStep(number: nat, weight: nat, s: seq<byte>, i: nat)
    requires i < |s|
    ensures Higher(number, weight, TagFrom(s, i)) ==
      if i > 4 || (i == 4 && s[i] % 128 > 15) then None
      else if s[i] < 128 then Some((number + weight * (s[i] % 128), i + 1))
      else Higher(number + weight * (s[i] % 128), weight * 128, TagFrom(s, i + 1))
  {
    if i <= 4 && s[i] >= 128 && TagFrom(s, i + 1).Some? {
      GroupsJoin(weight, s[i] - 128, TagFrom(s, i + 1).value.0);
    }
  }

  lemma GroupsJoin(w: nat, a: nat, r: nat)
    ensures w * (a + 128 * r) == w * a + (w * 128) * r
  {
  }

  /** Every 32-bit tag comes back, whatever follows it. */
  lemma {:induction false} TagComesBack(before: seq<byte>, tag: nat, rest: seq<byte>)
    requires |before| <= 4 && tag < Pow(128, 4 - |before|) * 16
    ensures TagFrom(before + TagBytes(tag) + rest, |before|) == Some((tag, |before| + |TagBytes(tag)|))
    decreases tag
  {
    var s := before + TagBytes(tag) + rest;
    Powers128();
    if tag >= 128 {
      var b := [tag % 128 + 128];
      TagComesBack(before + b, tag / 128, rest);
      assert s == (before + b) + TagBytes(tag / 128) + rest;
    }
  }

  /** The last of `n` bytes of a tag is the first without the high bit; a fifth has four bits at most. */
  ghost predicate TagEnds(s: seq<byte>, n: nat) {
    && 1 <= n <= 5 && n <= |s| && s[n - 1] < 128 && (n == 5 ==> s[4] <= 15)
    && forall k :: 0 <= k < n - 1 ==> s[k] >= 128
  }

  /** Group number `k` of a tag of `n` bytes. */
  function Group(s: seq<byte>, n: nat, k: nat): nat
    requires n <= |s|
  {
    if k < n then s[k] % 128 else 0
  }

  /** The groups from number `i` on. */
  function Groups(s: seq<byte>, n: nat, i: nat): nat
    requires n <= |s|
    decreases n - i
  {
    if i >= n then 0 else s[i] % 128 + 128 * Groups(s, n, i + 1)
  }

  lemma {:induction false} ReadsGroups(s: seq<byte>, n: nat, i: nat)
    requires TagEnds(s, n) && i < n
    ensures TagFrom(s, i) == Some((Groups(s, n, i), n))
    decreases n - i
  {
    if i + 1 < n {
      ReadsGroups(s, n, i + 1);
    } else {
      assert Groups(s, n, n) == 0;
    }
  }

  lemma {:induction false} GroupsAre(s: seq<byte>, n: nat, i: nat)
    requires n <= |s|
    ensures Groups(s, n, i) == Group(s, n, i) + 128 * Groups(s, n, i + 1)
    ensures i >= n ==> Groups(s, n, i) == 0
  {
  }

  lemma {:induction false} EndsSomewhere(s: seq<byte>, i: nat)
    requires TagFrom(s, i).Some? && forall k :: 0 <= k < i ==> s[k] >= 128
    ensures TagEnds(s, TagFrom(s, i).value.1)
    decreases |s| - i
  {
    if s[i] >= 128 {
      EndsSomewhere(s, i + 1);
    }
  }

  /** There is a tag just when its last byte is among the first five; its groups are put together, the lowest first. */
  lemma {:induction false} TagReads(s: seq<byte>, n: nat)
    ensures TagEnds(s, n) ==> (TagFrom(s, 0) ==
      Some((Group(s, n, 0) + 0x80 * Group(s, n, 1) + 0x4000 * Group(s, n, 2) + 0x20_0000 * Group(s, n, 3)
            + 0x1000_0000 * Group(s, n, 4), n)))
    ensures TagFrom(s, 0).Some? ==> TagEnds(s, TagFrom(s, 0).value.1)
  {
    hide TagFrom, Groups, Group;
    if TagEnds(s, n) {
      ReadsGroups(s, n, 0);
      GroupsAre(s, n, 0);
      GroupsAre(s, n, 1);
      GroupsAre(s, n, 2);
      GroupsAre(s, n, 3);
      GroupsAre(s, n, 4);
      GroupsAre(s, n, 5);
    }
    if TagFrom(s, 0).Some? {
      EndsSomewhere(s, 0);
    }
  }

  /** On the wire. */
  lemma TagExample()
    ensures TagBytes(300) == [172, 2] && IntBytes(0x1ab) == [0x2b, 0xa1]
  {
    assert Shift(0x1ab, 1) == 0x1a && Shift(0x1ab, 2) == 1;
    assert NibbleCount(1) == 1 && NibbleCount(0x1a) == 2 && NibbleCount(0x1ab) == 3;
  }

  /** Only the first five bytes matter. */
  lemma {:induction false} TagInFive(s: seq<byte>, m: nat, i: nat)
    requires m == Min(|s|, 5) && i <= m
    ensures TagFrom(s[..m], i) == TagFrom(s, i)
    decreases m - i
  {
    if i < m {
      TagInFive(s, m, i + 1);
    }
  }

  // ---- Integers ----

  /** `number` without its `i` lowest nibbles. */
  function Shift(number: nat, i: nat): nat {
    if i == 0 then number else Shift(number, i - 1) / 16
  }

  /** How many nibbles `number` has. */
  function NibbleCount(number: nat): nat {
    if number == 0 then 0 else 1 + NibbleCount(number / 16)
  }

  lemma {:induction false} ShiftStep(number: nat, i: nat)
    ensures Shift(number / 16, i) == Shift(number, i + 1)
  {
    if i > 0 {
      ShiftStep(number, i - 1);
    }
  }

  /** Nothing is left behind the last nibble, and something before it. */
  lemma {:induction false} ShiftedOut(number: nat, i: nat)
    ensures Shift(number, i) == 0 <==> NibbleCount(number) <= i
  {
    if i > 0 {
      ShiftedOut(number / 16, i - 1);
      ShiftStep(number, i - 1);
    }
  }

  /** Whether a number fits in so many nibbles. */
  lemma {:induction false} FitsNibbles(number: nat, n: nat)
    ensures NibbleCount(number) <= n <==> number < Pow(16, n)
  {
    if n > 0 && number > 0 {
      FitsNibbles(number / 16, n - 1);
      assert Pow(16, n) == 16 * Pow(16, n - 1);
    }
  }

  lemma Powers16()
    ensures Pow(16, 8) == TWO_32 && Pow(16, 16) == TWO_64
  {
    assert Pow(16, 4) == 0x1_0000;
    assert Pow(16, 8) == 0x1_0000 * Pow(16, 4);
    assert Pow(16, 12) == 0x1_0000 * Pow(16, 8);
    assert Pow(16, 16) == 0x1_0000 * Pow(16, 12);
  }

  /** The number of nibbles written, at least one, and the number of bytes they take. */
  function Written(number: nat): (n: nat)
    ensures n >= 1
  {
    if number == 0 then 1 else NibbleCount(number)
  }

  /** An integer: the count of its nibbles less one, then the nibbles, lowest first. */
  function IntBytes(number: nat): (b: seq<byte>)
    requires Written(number) <= 16
    ensures |b| == Written(number) / 2 + 1
  {
    [(Written(number) - 1) * 16 + number % 16]
    + seq(Written(number) / 2, i requires 0 <= i => Shift(number, 2 * i + 1) % 16 * 16 + Shift(number, 2 * i + 2) % 16)
  }

  /** Nibble number `i` (from 1 on) of the bytes at `off`. */
  function Nib(s: seq<byte>, off: nat, i: nat): nat
    requires off + i / 2 < |s|
  {
    if i % 2 == 1 then s[off + i / 2] % 16 else s[off + i / 2] / 16
  }

  /** The number whose nibbles are number `i` to number `n`. */
  function Value(s: seq<byte>, off: nat, i: nat, n: nat): nat
    requires off + n / 2 < |s|
    decreases n + 1 - i
  {
    if i > n then 0 else Nib(s, off, i) + 16 * Value(s, off, i + 1, n)
  }

  /** The integer at `off`, and how many bytes it takes; integers of more than `max` nibbles are refused. */
  function IntAt(s: seq<byte>, off: nat, max: nat): Option<(nat, nat)> {
    if off >= |s| then None else
      var n := s[off] / 16 + 1;
      if n > max || n / 2 + 1 > |s| - off then None else Some((Value(s, off, 1, n), n / 2 + 1))
  }

  lemma {:induction false} ValueBounded(s: seq<byte>, off: nat, i: nat, n: nat)
    requires off + n / 2 < |s| && i <= n + 1
    ensures Value(s, off, i, n) < Pow(16, n + 1 - i)
    decreases n + 1 - i
  {
    if i <= n {
      ValueBounded(s, off, i + 1, n);
      assert Pow(16, n + 1 - i) == 16 * Pow(16, n - i);
    }
  }

  lemma {:induction false} ValueOfNibble(s: seq<byte>, off: nat, i: nat, n: nat)
    requires off + n / 2 < |s| && i <= n
    ensures Value(s, off, i, n) % 16 == Nib(s, off, i) && Value(s, off, i, n) / 16 == Value(s, off, i + 1, n)
  {
    assert Nib(s, off, i) < 16;
  }

  /** The nibbles of a value are those it is read from. */
  lemma {:induction false} ValueNibble(s: seq<byte>, off: nat, i: nat, n: nat, k: nat)
    requires off + n / 2 < |s| && i + k <= n
    ensures Shift(Value(s, off, i, n), k) % 16 == Nib(s, off, i + k)
    decreases k
  {
    hide Shift, Nib, Value;
    ValueOfNibble(s, off, i, n);
    if k > 0 {
      ValueNibble(s, off, i + 1, n, k - 1);
      ShiftStep(Value(s, off, i, n), k - 1);
    } else {
      ShiftNone(Value(s, off, i, n));
    }
  }

  /**
   What an integer is read from: the high half of its first byte counts its nibbles, and those are
   the low half of that byte, and then two a byte, the high half first. It is refused just when
   there are too many, or they are not all there.
   */
  lemma {:induction false} IntReads(s: seq<byte>, off: nat, max: nat)
    requires off < |s|
    ensures var l, n := IntAt(s, off, max), s[off] / 16 + 1;
      && (l.Some? <==> n <= max && off + n / 2 < |s|)
      && (l.Some? ==> l.value.1 == n / 2 + 1 && l.value.0 < Pow(16, n))
      && forall k :: l.Some? && 0 <= k < n ==>
        Shift(l.value.0, k) % 16 == if k % 2 == 0 then s[off + (k + 1) / 2] % 16 else s[off + (k + 1) / 2] / 16
  {
    hide Value, Shift, Pow;
    var l, n := IntAt(s, off, max), s[off] / 16 + 1;
    if l.Some? {
      ValueBounded(s, off, 1, n);
      forall k | 0 <= k < n
        ensures Shift(l.value.0, k) % 16 == Nib(s, off, k + 1)
      {
        ValueNibble(s, off, 1, n, k);
      }
    }
  }

  /** Every number of at most `max` nibbles comes back, whatever is around it; no other does. */
  lemma IntComesBack(before: seq<byte>, number: nat, rest: seq<byte>, max: nat)
    requires Written(number) <= 16
    ensures IntAt(before + IntBytes(number) + rest, |before|, max) ==
      if Written(number) <= max then Some((number, |IntBytes(number)|)) else None
  {
    hide IntBytes, Value, Shift;
    var s, off, b, n := before + IntBytes(number) + rest, |before|, IntBytes(number), Written(number);
    assert forall k :: 0 <= k < |b| ==> s[off + k] == b[k];
    IntByteAt(number, 0);
    ValueIs(s, off, number, 1);
    ShiftNone(number);
  }

  lemma ShiftNone(number: nat)
    ensures Shift(number, 0) == number
  {
  }

  lemma IntByteAt(number: nat, i: nat)
    requires Written(number) <= 16 && i <= Written(number) / 2
    ensures IntBytes(number)[i] / 16 == if i == 0 then Written(number) - 1 else Shift(number, 2 * i - 1) % 16
    ensures IntBytes(number)[i] % 16 == Shift(number, 2 * i) % 16
  {
    assert Shift(number, 0) == number;
    if i > 0 {
      assert IntBytes(number)[i] == Shift(number, 2 * (i - 1) + 1) % 16 * 16 + Shift(number, 2 * (i - 1) + 2) % 16;
    }
  }

  lemma {:induction false} ValueIs(s: seq<byte>, off: nat, number: nat, i: nat)
    requires Written(number) <= 16 && 1 <= i <= Written(number) + 1 && off + |IntBytes(number)| <= |s|
    requires forall k :: 0 <= k < |IntBytes(number)| ==> s[off + k] == IntBytes(number)[k]
    ensures Value(s, off, i, Written(number)) == Shift(number, i - 1)
    decreases Written(number) + 1 - i
  {
    hide IntBytes;
    if i <= Written(number) {
      ValueIs(s, off, number, i + 1);
      IntByteAt(number, i / 2);
      assert s[off + i / 2] == IntBytes(number)[i / 2];
    } else {
      ShiftedOut(number, i - 1);
    }
  }

  /**
   encode_int_internal and encode_int64_internal: the nibbles are put one after another into
   `width` + 1 bytes of zeros.
   */
  method EncodeInt(data: array<byte>, at: nat, number0: nat, width: nat) returns (len: nat)
    requires (width == 4 || width == 8) && number0 < Pow(16, 2 * width) && at + width + 1 <= data.Length
    modifies data
    ensures Written(number0) <= 16 && len == |IntBytes(number0)| <= width + 1
    ensures data[at..at + len] == IntBytes(number0)
    ensures data[..at] == old(data[..at])
  {
    hide *;
    WrittenFits(number0, width);
    ShiftNone(number0);
    forall q | at <= q <= at + width {
      data[q] := 0;
    }
    var off: nat, number := 1, number0;
    forall q | at <= q <= at + width
      ensures HalfDone(data[q], number0, 1, q - at)
    {
      HalfStart(number0, q - at);
    }
    while number != 0
      invariant 1 <= off && number == Shift(number0, off - 1) && off - 1 <= NibbleCount(number0)
      invariant forall q :: at <= q <= at + width ==> HalfDone(data[q], number0, off, q - at)
      invariant data[..at] == old(data[..at])
      decreases number
    {
      ShiftedOut(number0, off - 1);
      ShiftNext(number0, off - 1);
      PutNibble(data, at, width, off, number % 16, number0);
      number := number / 16;
      off := off + 1;
    }
    ShiftedOut(number0, off - 1);
    WrittenIs(number0, off);
    var nibbles := if off > 2 then off - 2 else 0;
    ghost var x0 := data[at];
    data[at] := data[at] % 16 + nibbles % 16 * 16;
    len := (off + 1) / 2;
    forall i | 0 <= i < len
      ensures data[at + i] == IntBytes(number0)[i]
    {
      DoneByte(if i == 0 then x0 else data[at + i], number0, off, i);
    }
  }

  /** Put nibble number `off` into its half of a byte. */
  method PutNibble(data: array<byte>, at: nat, width: nat, off: nat, nibble: nat, ghost number0: nat)
    requires at + width < data.Length && 1 <= off && off / 2 <= width
    requires nibble == Shift(number0, off - 1) % 16
    requires forall q :: at <= q <= at + width ==> HalfDone(data[q], number0, off, q - at)
    modifies data
    ensures forall q :: at <= q <= at + width ==> HalfDone(data[q], number0, off + 1, q - at)
    ensures data[..at] == old(data[..at])
  {
    hide *;
    forall q | at <= q <= at + width
      ensures HalfDone(if q == at + off / 2 then Filled(data[q], off, nibble) else data[q], number0, off + 1, q - at)
    {
      HalfStep(data[q], number0, off, q - at);
    }
    FilledIs(data[at + off / 2], off, nibble);
    if off % 2 == 1 {
      data[at + off / 2] := data[at + off / 2] / 16 * 16 + nibble;
    } else {
      data[at + off / 2] := data[at + off / 2] % 16 + nibble * 16;
    }
  }

  lemma WrittenFits(number: nat, width: nat)
    requires (width == 4 || width == 8) && number < Pow(16, 2 * width)
    ensures NibbleCount(number) <= 2 * width && Written(number) <= 2 * width
    ensures Written(number) / 2 + 1 <= width + 1
  {
    FitsNibbles(number, 2 * width);
  }

  lemma WrittenIs(number: nat, off: nat)
    requires off - 1 == NibbleCount(number) && Written(number) <= 16
    ensures var nibbles := if off > 2 then off - 2 else 0;
      nibbles == Written(number) - 1 && (off + 1) / 2 == Written(number) / 2 + 1 == |IntBytes(number)|
  {
  }

  /** Byte `k` when the nibbles before number `off` are in place, but for the count. */
  predicate HalfDone(x: byte, number: nat, off: nat, k: nat) {
    && x % 16 == (if 2 * k + 1 < off then Shift(number, 2 * k) % 16 else 0)
    && x / 16 == (if k >= 1 && 2 * k < off then Shift(number, 2 * k - 1) % 16 else 0)
  }

  /** A byte with nibble number `off` put into it. */
  function Filled(x: byte, off: nat, nibble: nat): byte
    requires nibble < 16
  {
    if off % 2 == 1 then x / 16 * 16 + nibble else x % 16 + nibble * 16
  }

  lemma FilledIs(x: byte, off: nat, nibble: nat)
    requires nibble < 16
    ensures Filled(x, off, nibble) == if off % 2 == 1 then x / 16 * 16 + nibble else x % 16 + nibble * 16
  {
  }

  lemma HalfStart(number: nat, k: nat)
    ensures HalfDone(0, number, 1, k)
  {
  }

  lemma HalfStep(x: byte, number: nat, off: nat, k: nat)
    requires HalfDone(x, number, off, k) && off >= 1
    ensures HalfDone(if k == off / 2 then Filled(x, off, Shift(number, off - 1) % 16) else x, number, off + 1, k)
  {
    hide Shift;
  }

  /** Once all nibbles are in place, only the count is missing. */
  lemma DoneByte(x: byte, number: nat, off: nat, k: nat)
    requires off - 1 == NibbleCount(number) && Written(number) <= 16 && k <= Written(number) / 2
    requires HalfDone(x, number, off, k)
    ensures IntBytes(number)[k] == if k == 0 then x % 16 + (Written(number) - 1) * 16 else x
  {
    hide Shift, IntBytes;
    IntByteAt(number, k);
    ShiftedOut(number, 2 * k);
    if k > 0 {
      ShiftedOut(number, 2 * k - 1);
    }
  }

  lemma ShiftNext(number: nat, i: nat)
    ensures Shift(number, i + 1) == Shift(number, i) / 16
  {
  }

  /** The loop of decode_int_internal and decode_int64_internal, on a number of 4 * `max` bits. */
  method ReadInt(s: seq<byte>, off: nat, max: nat) returns (number: Option<(nat, nat)>)
    ensures number == IntAt(s, off, max)
  {
    hide Value, Pow, Nib;
    if off >= |s| {
      return None;
    }
    var nibbles := s[off] / 16 + 1;
    if nibbles > max || nibbles / 2 + 1 > |s| - off {
      return None;
    }
    var len: nat, x: nat := nibbles / 2 + 1, 0;
    ghost var n := nibbles;
    ValueStep(s, off, n + 1, n);
    while nibbles > 0
      invariant 0 <= nibbles <= n && x == Value(s, off, nibbles + 1, n)
    {
      ValueFits(s, off, nibbles + 1, n, max);
      ValueStep(s, off, nibbles, n);
      NibIs(s, off, nibbles);
      x := Small(x * 16, Pow(16, max));
      x := x + (if nibbles % 2 == 1 then s[off + nibbles / 2] % 16 else s[off + nibbles / 2] / 16);
      nibbles := nibbles - 1;
    }
    return Some((x, len));
  }

  /** What is left of `x` in an unsigned type of so many values. */
  function Small(x: nat, modulus: nat): (r: nat)
    requires modulus > 0
    ensures x < modulus ==> r == x
  {
    x % modulus
  }

  lemma NibIs(s: seq<byte>, off: nat, i: nat)
    requires off + i / 2 < |s|
    ensures Nib(s, off, i) == if i % 2 == 1 then s[off + i / 2] % 16 else s[off + i / 2] / 16
  {
  }

  lemma ValueStep(s: seq<byte>, off: nat, i: nat, n: nat)
    requires off + n / 2 < |s|
    ensures Value(s, off, i, n) == if i > n then 0 else Nib(s, off, i) + 16 * Value(s, off, i + 1, n)
  {
  }

  lemma {:induction false} PowGrows(b: nat, m: nat, n: nat)
    requires m <= n && b > 0
    ensures Pow(b, m) <= Pow(b, n)
    decreases n
  {
    if m < n {
      PowGrows(b, m, n - 1);
      assert b * Pow(b, n - 1) >= Pow(b, n - 1);
    }
  }

  lemma ValueFits(s: seq<byte>, off: nat, i: nat, n: nat, max: nat)
    requires off + n / 2 < |s| && 2 <= i <= n + 1 && n <= max
    ensures Value(s, off, i, n) * 16 < Pow(16, max)
  {
    ValueBounded(s, off, i, n);
    PowGrows(16, n + 2 - i, max);
    assert Pow(16, n + 2 - i) == 16 * Pow(16, n + 1 - i);
  }
}
