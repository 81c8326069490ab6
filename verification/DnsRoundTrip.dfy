/**
 What name_parse makes of the names that dnsname_to_labels wrote: for any message of names and
 other data written one after another with one compression table, every name comes back.
 */
module DnsRoundTrip {
  import opened Bytes
  import opened DnsName
  import opened DnsParse

  /** The labels of a name up to its first empty one, which reads as the end of the name. */
  ghost function Cut(name: seq<byte>): Labels
    decreases |name|
  {
    var n := DotAt(name);
    if n == 0 then [] else [name[..n]] + if n == |name| then [] else Cut(name[n + 1..])
  }

  /** All labels are non-empty; one dot may follow the last. */
  predicate WellFormed(name: seq<byte>)
    decreases |name|
  {
    name == [] || (DotAt(name) > 0 && (DotAt(name) == |name| || WellFormed(name[DotAt(name) + 1..])))
  }

  function WithoutFinalDot(name: seq<byte>): seq<byte> {
    if name != [] && name[|name| - 1] == DOT then name[..|name| - 1] else name
  }

  /**
   The text that is read back is the name without its final dot exactly when no label but a
   missing last one is empty, or the name is a single dot.
   */
  lemma {:induction false} TextComesBack(name: seq<byte>)
    ensures Join(Cut(name)) == WithoutFinalDot(name) <==> WellFormed(name) || name == [DOT]
    ensures WellFormed(name) && name != [] ==> Cut(name) != []
    decreases |name|
  {
    hide WithoutFinalDot, DotAt, Join, Cut;
    var n := DotAt(name);
    JoinStep(name);
    FinalDot(name);
    if n == 0 {
      assert !WellFormed(name) || name == [];
    } else if n < |name| {
      var l, rest := name[..n], name[n + 1..];
      TextComesBack(rest);
      JoinStep(rest);
      FinalDot(rest);
      SameTail(l, Join(Cut(rest)), WithoutFinalDot(rest));
      assert WellFormed(name) <==> WellFormed(rest);
    } else {
      assert WellFormed(name);
    }
  }

  lemma {:induction false} SameTail(l: seq<byte>, a: seq<byte>, b: seq<byte>)
    ensures l + [DOT] + a == l + [DOT] + b ==> a == b
    ensures l != l + [DOT] + b && (l + [DOT] + b != [DOT] || l == [])
  {
    assert (l + [DOT] + a)[|l| + 1..] == a && (l + [DOT] + b)[|l| + 1..] == b;
    assert |l + [DOT] + b| == |l| + 1 + |b|;
  }

  lemma {:induction false} JoinStep(name: seq<byte>)
    ensures var n := DotAt(name);
      if n == 0 then Cut(name) == [] && Join(Cut(name)) == []
      else if n == |name| then Cut(name) == [name] && Join(Cut(name)) == name
      else
        var rest := Cut(name[n + 1..]);
        && Cut(name) == [name[..n]] + rest
        && Join(Cut(name)) == if rest == [] then name[..n] else name[..n] + [DOT] + Join(rest)
  {
    hide DotAt;
    var n := DotAt(name);
    assert name[..|name|] == name;
    if 0 < n < |name| {
      assert Cut(name)[1..] == Cut(name[n + 1..]);
    }
  }

  lemma {:induction false} FinalDot(name: seq<byte>)
    ensures var n := DotAt(name);
      if n == |name| then WithoutFinalDot(name) == name && name != [DOT]
      else if n + 1 == |name| then WithoutFinalDot(name) == name[..n] && (n == 0 ==> name == [DOT])
      else WithoutFinalDot(name) == name[..n] + [DOT] + WithoutFinalDot(name[n + 1..]) && name != [DOT]
  {
    hide DotAt;
    var n := DotAt(name);
    if n == |name| {
      if name != [] {
        NoDotBefore(name, |name| - 1);
      }
    } else if n + 1 < |name| {
      FinalDotOfRest(name[..n], name[n + 1..]);
      assert name == name[..n] + [DOT] + name[n + 1..];
    }
  }

  lemma {:induction false} FinalDotOfRest(l: seq<byte>, rest: seq<byte>)
    requires rest != []
    ensures WithoutFinalDot(l + [DOT] + rest) == l + [DOT] + WithoutFinalDot(rest)
  {
    var name := l + [DOT] + rest;
    assert name[|name| - 1] == rest[|rest| - 1];
    assert name[..|name| - 1] == l + [DOT] + rest[..|rest| - 1];
  }

  /** More jumps allowed, or more bytes behind the message, do not change what is read. */
  lemma {:induction false} ReadsOn(p: seq<byte>, more: seq<byte>, j: nat, hops: nat, hops': nat)
    requires LabelsAt(p, j, hops).Some? && hops <= hops'
    ensures LabelsAt(p + more, j, hops') == LabelsAt(p, j, hops)
    ensures NameEnd(p + more, j) == NameEnd(p, j)
    decreases hops, |p| - j
  {
    if p[j] >= 64 {
      ReadsOn(p, more, Target(p[j], p[j + 1]), hops - 1, hops' - 1);
    } else if p[j] != 0 {
      ReadsOn(p, more, j + 1 + p[j], hops, hops');
      assert (p + more)[j + 1..j + 1 + p[j]] == p[j + 1..j + 1 + p[j]];
    }
  }

  /** Reading at an entry of the table gives the name it was made for, with strictly backward jumps. */
  ghost predicate Good(p: seq<byte>, e: Entry) {
    e.pos < |p| && LabelsAt(p, e.pos, e.pos) == Some(Cut(e.v))
  }

  lemma {:induction false} StaysGood(p: seq<byte>, more: seq<byte>, e: Entry)
    requires Good(p, e)
    ensures Good(p + more, e)
  {
    ReadsOn(p, more, e.pos, e.pos, e.pos);
  }

  lemma {:induction false} FindIs(entries: seq<Entry>, name: seq<byte>)
    ensures Find(entries, name) >= 0 ==> Entry(name, Find(entries, name)) in entries
  {
    if entries != [] && entries[0].v != name {
      FindIs(entries[1..], name);
    } else if entries != [] {
      assert entries[0] == Entry(name, Find(entries, name));
    }
  }

  /** Entries for names not longer than `name` are good, before `start`, and can be pointed at. */
  ghost predicate Usable(p: seq<byte>, entries: seq<Entry>, name: seq<byte>, start: nat) {
    forall e :: e in entries && |e.v| <= |name| ==> Good(p, e) && e.pos < start && e.pos < POINTER_LIMIT
  }

  lemma {:induction false} PointerReads(p: seq<byte>, e: Entry, start: nat)
    requires Good(p, e) && e.pos < start && e.pos < POINTER_LIMIT
    ensures var q := p + PointerTo(e.pos);
      LabelsAt(q, |p|, start) == Some(Cut(e.v)) && NameEnd(q, |p|) == |q|
  {
    var q := p + PointerTo(e.pos);
    PointerReaches(e.pos);
    assert q[|p|] == PointerTo(e.pos)[0] && q[|p| + 1] == PointerTo(e.pos)[1];
    ReadsOn(p, PointerTo(e.pos), e.pos, e.pos, start - 1);
  }

  /** A label and what follows it. */
  lemma {:induction false} LabelReads(p: seq<byte>, name: seq<byte>, q: seq<byte>, start: nat)
    requires DotAt(name) <= MAX_LABEL && p + FirstLabel(name) <= q
    ensures var n, j := DotAt(name), |p| + 1 + DotAt(name);
      if n == 0 then LabelsAt(q, |p|, start) == Some([]) && NameEnd(q, |p|) == |p| + 1
      else LabelsAt(q, |p|, start) == Cons(name[..n], LabelsAt(q, j, start)) && NameEnd(q, |p|) == NameEnd(q, j)
  {
    hide DotAt;
    var n := DotAt(name);
    var p' := p + FirstLabel(name);
    assert q[..|p'|] == p';
    assert q[|p|] == p'[|p|] == n;
    assert q[|p| + 1..|p| + 1 + n] == p'[|p| + 1..] == name[..n];
  }

  /** Entries of `now` that were not in `before` are good, and made between `p` and `q`. */
  ghost predicate NewGood(p: seq<byte>, q: seq<byte>, before: seq<Entry>, now: seq<Entry>) {
    forall x :: x in now ==> x in before || (Good(q, x) && |p| <= x.pos < |q|)
  }

  /** The (rest of a) name at the end of `p` reads as it should in `q`. */
  ghost predicate ReadsAs(p: seq<byte>, q: seq<byte>, name: seq<byte>, start: nat) {
    LabelsAt(q, |p|, start) == Some(Cut(name)) && (WellFormed(name) ==> NameEnd(q, |p|) == |q|)
  }

  /** What the encoder wrote for (the rest of) a name can be read, and its new entries are good. */
  lemma {:induction false} EncodedReads(p: seq<byte>, entries: seq<Entry>, hasTable: bool, bufLen: nat, name: seq<byte>, start: nat)
    requires start <= |p| && 0 !in name && Usable(p, entries, name, start)
    requires EncodeFrom(entries, hasTable, bufLen, |p|, name).result >= 0
    ensures var e := EncodeFrom(entries, hasTable, bufLen, |p|, name); var q := p + e.bytes;
      e.result == |q| > |p| && ReadsAs(p, q, name, start) && NewGood(p, q, entries, e.entries)
    decreases |name|
  {
    hide PointerTo, FirstLabel, Find, NewGood, ReadsAs, Usable, Added, DotAt;
    var ref := if hasTable then Find(entries, name) else -1;
    if ref >= 0 {
      HitReads(p, entries, name, start);
    } else if DotAt(name) == |name| {
      LastReads(p, entries, hasTable, name, start);
    } else {
      var n, part, rest := DotAt(name), FirstLabel(name), name[DotAt(name) + 1..];
      var p', more := p + part, if hasTable then Added(entries, Entry(name, |p|)) else entries;
      UsableOn(p, entries, name, start, rest, hasTable);
      EncodedReads(p', more, hasTable, bufLen, rest, start);
      var f := EncodeFrom(more, hasTable, bufLen, |p'|, rest);
      AppendMore(p, part, f.bytes);
      NextReads(p, entries, hasTable, name, p' + f.bytes, f.entries, start);
    }
  }

  lemma {:induction false} HitReads(p: seq<byte>, entries: seq<Entry>, name: seq<byte>, start: nat)
    requires Find(entries, name) >= 0 && Usable(p, entries, name, start)
    ensures var q := p + PointerTo(Find(entries, name)); ReadsAs(p, q, name, start) && NewGood(p, q, entries, entries)
  {
    FindIs(entries, name);
    PointerReads(p, Entry(name, Find(entries, name)), start);
  }

  lemma {:induction false} LastReads(p: seq<byte>, entries: seq<Entry>, hasTable: bool, name: seq<byte>, start: nat)
    requires start <= |p| && 0 !in name && DotAt(name) == |name| <= MAX_LABEL
    ensures var part := FirstLabel(name);
      var q := p + (if part[|name|] != 0 then part + [0] else part);
      ReadsAs(p, q, name, start) && NewGood(p, q, entries, if hasTable then Added(entries, Entry(name, |p|)) else entries)
  {
    hide DotAt, LabelsAt, NameEnd, Good, FirstLabel;
    var part := FirstLabel(name);
    var q := p + (if part[|name|] != 0 then part + [0] else part);
    LastByte(name);
    LabelReads(p, name, q, start);
    if name != [] {
      ZeroReads(q, |p| + |part|, start);
    }
    EntryGood(q, Entry(name, |p|), start);
  }

  lemma {:induction false} LastByte(name: seq<byte>)
    requires 0 !in name && DotAt(name) == |name| <= MAX_LABEL
    ensures FirstLabel(name)[|name|] != 0 <==> name != []
    ensures Cut(name) == if name == [] then [] else [name]
    ensures name[..|name|] == name
  {
    hide DotAt;
    JoinStep(name);
    if name != [] {
      assert FirstLabel(name)[|name|] == name[|name| - 1];
    }
  }

  lemma ZeroReads(q: seq<byte>, j: nat, h: nat)
    requires j < |q| && q[j] == 0
    ensures LabelsAt(q, j, h) == Some([]) && NameEnd(q, j) == j + 1
  {
  }

  lemma {:induction false} NextReads(p: seq<byte>, entries: seq<Entry>, hasTable: bool, name: seq<byte>, q: seq<byte>, final: seq<Entry>, start: nat)
    requires start <= |p| && DotAt(name) < |name| && DotAt(name) <= MAX_LABEL
    requires var p' := p + FirstLabel(name);
      && p' <= q && |p'| < |q| && ReadsAs(p', q, name[DotAt(name) + 1..], start)
      && NewGood(p', q, if hasTable then Added(entries, Entry(name, |p|)) else entries, final)
    ensures ReadsAs(p, q, name, start) && NewGood(p, q, entries, final)
  {
    hide LabelsAt, NameEnd, Good, FirstLabel, DotAt;
    LabelReads(p, name, q, start);
    EntryGood(q, Entry(name, |p|), start);
  }

  lemma {:induction false} EntryGood(q: seq<byte>, e: Entry, start: nat)
    requires start <= e.pos < |q| && LabelsAt(q, e.pos, start) == Some(Cut(e.v))
    ensures Good(q, e)
  {
    ReadsOn(q, [], e.pos, start, e.pos);
    assert q + [] == q;
  }

  lemma {:induction false} UsableOn(p: seq<byte>, entries: seq<Entry>, name: seq<byte>, start: nat, rest: seq<byte>, hasTable: bool)
    requires Usable(p, entries, name, start) && |rest| < |name| && DotAt(name) <= MAX_LABEL
    ensures Usable(p + FirstLabel(name), if hasTable then Added(entries, Entry(name, |p|)) else entries, rest, start)
  {
    hide LabelsAt, Good, FirstLabel, DotAt;
    forall e | e in entries && |e.v| <= |rest|
      ensures Good(p + FirstLabel(name), e)
    {
      StaysGood(p, FirstLabel(name), e);
    }
  }

  /** Without a table, the reader ends where the encoder ended exactly when the name is well formed. */
  lemma {:induction false} EndsTogether(p: seq<byte>, bufLen: nat, name: seq<byte>)
    requires 0 !in name && EncodeFrom([], false, bufLen, |p|, name).result >= 0
    ensures var q := p + EncodeFrom([], false, bufLen, |p|, name).bytes;
      |p| < |q| && NameEnd(q, |p|) <= |q| && (NameEnd(q, |p|) == |q| <==> WellFormed(name))
    decreases |name|
  {
    hide DotAt, LabelsAt, NameEnd, FirstLabel;
    var n, part := DotAt(name), FirstLabel(name);
    var q := p + EncodeFrom([], false, bufLen, |p|, name).bytes;
    if n == |name| {
      LastReads(p, [], false, name, 0);
    } else {
      var p', rest := p + part, name[n + 1..];
      EndsTogether(p', bufLen, rest);
      AppendMore(p, part, EncodeFrom([], false, bufLen, |p'|, rest).bytes);
      LabelReads(p, name, q, 0);
    }
  }

  /** For one: the name `a..b` is encoded in six bytes, of which the reader takes fewer, for `a`. */
  lemma {:induction false} EmptyLabelIsLost()
    ensures var name := [97, DOT, DOT, 98];
      var e := EncodeFrom([], false, 6, 0, name);
      && e.result == 6 && LabelsAt(e.bytes, 0, 0) == Some([[97]]) && NameEnd(e.bytes, 0) < 6
      && Join([[97]]) != WithoutFinalDot(name)
  {
    hide LabelsAt, NameEnd, Added, Find, FirstLabel, EncodeFrom;
    var name := [97, DOT, DOT, 98];
    DotsOfEmptyLabel(name);
    PlainSize(6, 0, name);
    EncodeSize([], false, 6, 0, name);
    EncodedReads([], [], false, 6, name, 0);
    EndsTogether([], 6, name);
    var q := EncodeFrom([], false, 6, 0, name).bytes;
    assert [] + q == q;
  }

  lemma {:induction false} DotsOfEmptyLabel(name: seq<byte>)
    requires name == [97, DOT, DOT, 98]
    ensures ShortLabels(name) && !WellFormed(name) && Cut(name) == [[97]]
  {
    assert name[1..] == [DOT, DOT, 98] && name[2..] == [DOT, 98] && name[2..][1..] == [98] && [98][1..] == [];
    assert DotAt(name) == 1 && DotAt(name[2..]) == 0 && DotAt([98]) == 1;
    assert name[..1] == [97] && Cut(name[2..]) == [];
  }

  /** A message is built of names, and of other data between them. */
  datatype Piece = Name(name: seq<byte>) | Data(bytes: seq<byte>)

  datatype Message = Message(bytes: seq<byte>, entries: seq<Entry>)

  function Put(m: Message, bufLen: nat, piece: Piece): Option<Message> {
    match piece
    case Name(name) =>
      var e := Encode(m.entries, true, bufLen, |m.bytes|, name);
      if e.result < 0 then None else Some(Message(m.bytes + e.bytes, e.entries))
    case Data(bytes) =>
      if |m.bytes| + |bytes| > bufLen then None else Some(Message(m.bytes + bytes, m.entries))
  }

  function PutAll(m: Message, bufLen: nat, pieces: seq<Piece>): Option<Message>
    decreases |pieces|
  {
    if pieces == [] then Some(m) else
      var next := Put(m, bufLen, pieces[0]);
      if next.None? then None else PutAll(next.value, bufLen, pieces[1..])
  }

  /** In `final`, every name among the pieces put behind `m` reads as its labels, and ends where it was ended. */
  ghost predicate ReadBack(final: seq<byte>, m: Message, bufLen: nat, pieces: seq<Piece>)
    decreases |pieces|
  {
    pieces == [] ||
    var next := Put(m, bufLen, pieces[0]);
    && next.Some?
    && (pieces[0].Name? ==> NameBack(final, |m.bytes|, |next.value.bytes|, pieces[0].name))
    && ReadBack(final, next.value, bufLen, pieces[1..])
  }

  ghost predicate NameBack(final: seq<byte>, at: nat, end: nat, name: seq<byte>) {
    LabelsAt(final, at, |final|) == Some(Cut(name)) && (WellFormed(name) ==> NameEnd(final, at) == end)
  }

  ghost predicate AllGood(m: Message) {
    forall e :: e in m.entries ==> Good(m.bytes, e)
  }

  /**
   Section 4.1.4 of RFC 1035, for whole messages: whatever names and data are put one after
   another, with one compression table, in a message that pointers can reach all of, name_parse
   finds at the place of each name just that name's labels, and ends where the encoder ended.
   */
  lemma {:induction false} MessageReadsBack(m: Message, bufLen: nat, pieces: seq<Piece>)
    requires AllGood(m) && PutAll(m, bufLen, pieces).Some?
    requires |PutAll(m, bufLen, pieces).value.bytes| <= POINTER_LIMIT
    requires forall i :: 0 <= i < |pieces| && pieces[i].Name? ==> 0 !in pieces[i].name
    ensures ReadBack(PutAll(m, bufLen, pieces).value.bytes, m, bufLen, pieces)
    ensures m.bytes <= PutAll(m, bufLen, pieces).value.bytes && AllGood(PutAll(m, bufLen, pieces).value)
    decreases |pieces|
  {
    hide Put, LabelsAt, Good, NameBack, AllGood;
    if pieces != [] {
      var next := Put(m, bufLen, pieces[0]).value;
      PutGrows(m, bufLen, pieces[0]);
      PutAllGrows(next, bufLen, pieces[1..]);
      PutReads(m, bufLen, pieces[0]);
      MessageReadsBack(next, bufLen, pieces[1..]);
      if pieces[0].Name? {
        BackInFinal(next.bytes, PutAll(m, bufLen, pieces).value.bytes, |m.bytes|, pieces[0].name);
      }
    }
  }

  lemma PutGrows(m: Message, bufLen: nat, piece: Piece)
    requires Put(m, bufLen, piece).Some?
    ensures m.bytes <= Put(m, bufLen, piece).value.bytes
  {
  }

  lemma {:induction false} PutAllGrows(m: Message, bufLen: nat, pieces: seq<Piece>)
    requires PutAll(m, bufLen, pieces).Some?
    ensures m.bytes <= PutAll(m, bufLen, pieces).value.bytes
    decreases |pieces|
  {
    if pieces != [] {
      PutGrows(m, bufLen, pieces[0]);
      PutAllGrows(Put(m, bufLen, pieces[0]).value, bufLen, pieces[1..]);
    }
  }

  lemma {:induction false} PutReads(m: Message, bufLen: nat, piece: Piece)
    requires AllGood(m) && Put(m, bufLen, piece).Some? && |m.bytes| <= POINTER_LIMIT
    requires piece.Name? ==> 0 !in piece.name
    ensures var next := Put(m, bufLen, piece).value;
      AllGood(next) && (piece.Name? ==> |m.bytes| < |next.bytes| && ReadsAs(m.bytes, next.bytes, piece.name, |m.bytes|))
  {
    hide LabelsAt, EncodeFrom, Good, ReadsAs;
    var p := m.bytes;
    match piece
    case Name(name) =>
      GoodInside(m);
      EncodedReads(p, m.entries, true, bufLen, name, |p|);
      var e := EncodeFrom(m.entries, true, bufLen, |p|, name);
      forall x | x in e.entries
        ensures Good(p + e.bytes, x)
      {
        if x in m.entries {
          StaysGood(p, e.bytes, x);
        }
      }
    case Data(bytes) =>
      forall x | x in m.entries
        ensures Good(p + bytes, x)
      {
        StaysGood(p, bytes, x);
      }
  }

  lemma GoodInside(m: Message)
    requires AllGood(m)
    ensures forall e :: e in m.entries ==> Good(m.bytes, e) && e.pos < |m.bytes|
  {
  }

  lemma {:induction false} BackInFinal(q: seq<byte>, final: seq<byte>, at: nat, name: seq<byte>)
    requires at < |q| && q <= final && LabelsAt(q, at, at) == Some(Cut(name))
    requires WellFormed(name) ==> NameEnd(q, at) == |q|
    ensures NameBack(final, at, |q|, name)
  {
    assert final == q + final[|q|..];
    ReadsOn(q, final[|q|..], at, at, |final|);
  }

  /** The array on the stack that a response is formatted in. */
  const RESPONSE_SIZE: nat := 1500

  /** Somewhere in the message a name's last byte is written behind memory of the given size. */
  predicate RunsOver(m: Message, bufLen: nat, size: nat, pieces: seq<Piece>)
    decreases |pieces|
  {
    pieces != [] &&
    var next := Put(m, bufLen, pieces[0]);
    next.Some? && (|next.value.bytes| > size || RunsOver(next.value, bufLen, size, pieces[1..]))
  }

  /** The name does not fit behind `m` by just its final zero byte. */
  predicate OneTooMany(m: Message, bufLen: nat, name: seq<byte>) {
    && |name| <= MAX_NAME && ShortLabels(name) && Unknown(m.entries, name) && LacksEnd(name)
    && |m.bytes| + |name| + 1 == bufLen
  }

  /**
   With memory of just the size that is checked against, the message runs over it exactly when
   some name, put where the pieces before it end, does not fit by just its final zero byte. With
   one byte more it never does.
   */
  lemma {:induction false} RunsOverExactlyWhen(m: Message, bufLen: nat, size: nat, pieces: seq<Piece>)
    requires bufLen <= size && |m.bytes| <= bufLen
    ensures RunsOver(m, bufLen, size, pieces) <==>
      bufLen == size && exists k :: 0 <= k < |pieces| && RunsOverAt(m, bufLen, pieces, k)
    decreases |pieces|
  {
    hide Put, OneTooMany;
    if pieces != [] {
      var next := Put(m, bufLen, pieces[0]);
      PutSize(m, bufLen, pieces[0]);
      forall k | 0 < k < |pieces|
        ensures RunsOverAt(m, bufLen, pieces, k) <==> next.Some? && RunsOverAt(next.value, bufLen, pieces[1..], k - 1)
      {
        assert pieces[..k][0] == pieces[0] && pieces[..k][1..] == pieces[1..][..k - 1];
      }
      if next.Some? && |next.value.bytes| <= bufLen {
        RunsOverExactlyWhen(next.value, bufLen, size, pieces[1..]);
        if RunsOver(next.value, bufLen, size, pieces[1..]) {
          var k :| 0 <= k < |pieces| - 1 && RunsOverAt(next.value, bufLen, pieces[1..], k);
          assert RunsOverAt(m, bufLen, pieces, k + 1);
        }
      } else if next.Some? {
        NothingFits(next.value, bufLen, size, pieces[1..]);
      }
      assert RunsOverAt(m, bufLen, pieces, 0) <==> pieces[0].Name? && OneTooMany(m, bufLen, pieces[0].name) by {
        assert pieces[..0] == [];
      }
    }
  }

  /** What a piece does to the size of the message. */
  lemma {:induction false} PutSize(m: Message, bufLen: nat, piece: Piece)
    requires |m.bytes| <= bufLen
    ensures piece.Name? && OneTooMany(m, bufLen, piece.name) ==> Put(m, bufLen, piece).Some?
    ensures var next := Put(m, bufLen, piece);
      next.Some? ==>
        && |next.value.bytes| <= bufLen + 1
        && (|next.value.bytes| > bufLen <==> piece.Name? && OneTooMany(m, bufLen, piece.name))
  {
    if piece.Name? {
      hide Encode, EncodeFrom, Unknown, ShortLabels, LacksEnd;
      EncodeSize(m.entries, true, bufLen, |m.bytes|, piece.name);
      OverrunsExactlyWhen(m.entries, true, bufLen, |m.bytes|, piece.name);
    }
  }

  /** Behind such a name nothing fits any more. */
  lemma {:induction false} NothingFits(m: Message, bufLen: nat, size: nat, pieces: seq<Piece>)
    requires |m.bytes| > bufLen
    ensures pieces != [] ==> PutAll(m, bufLen, pieces).None?
    ensures !RunsOver(m, bufLen, size, pieces)
  {
    if pieces != [] && pieces[0].Name? {
      hide Encode, EncodeFrom, Unknown, ShortLabels, LacksEnd;
      EncodeSize(m.entries, true, bufLen, |m.bytes|, pieces[0].name);
      OverrunsExactlyWhen(m.entries, true, bufLen, |m.bytes|, pieces[0].name);
    }
  }

  /** For one: a name of three letters behind all but four bytes of the memory that a response has. */
  lemma {:induction false} ResponseRunsOver(data: seq<byte>)
    requires |data| == RESPONSE_SIZE - 4
    ensures RunsOver(Message([], []), RESPONSE_SIZE, RESPONSE_SIZE, [Data(data), Name([97, 98, 99])])
  {
    hide Encode;
    var pieces := [Data(data), Name([97, 98, 99])];
    assert pieces[1..] == [Name([97, 98, 99])] && [] + data == data;
    LastNameOverruns([], RESPONSE_SIZE);
    EncodeSize([], true, RESPONSE_SIZE, |data|, [97, 98, 99]);
  }

  predicate RunsOverAt(m: Message, bufLen: nat, pieces: seq<Piece>, k: nat)
    requires k < |pieces|
  {
    var before := PutAll(m, bufLen, pieces[..k]);
    pieces[k].Name? && before.Some? && OneTooMany(before.value, bufLen, pieces[k].name)
  }

  /**
   Put names and data one after another, as the formatting of a response does, in memory of at
   least the size that is checked against.
   */
  method WriteMessage(buf: array<byte>, bufLen: nat, pieces: seq<Piece>) returns (r: Answer)
    requires bufLen <= buf.Length
    modifies buf
    ensures r.Overran? <==> RunsOver(Message([], []), bufLen, buf.Length, pieces)
    ensures r.Returned? ==>
      var m := PutAll(Message([], []), bufLen, pieces);
      if m.None? then r.value < 0 else 0 <= r.value <= buf.Length && buf[..r.value] == m.value.bytes
  {
    hide Encode;
    var table := new LabelTable();
    var j: nat := 0;
    for i := 0 to |pieces|
      invariant table.Valid() && fresh(table) && fresh(table.labels) && j <= buf.Length
      invariant PutAll(Message([], []), bufLen, pieces) == PutAll(Message(buf[..j], table.Entries()), bufLen, pieces[i..])
      invariant RunsOver(Message([], []), bufLen, buf.Length, pieces)
        <==> RunsOver(Message(buf[..j], table.Entries()), bufLen, buf.Length, pieces[i..])
    {
      assert pieces[i..][0] == pieces[i] && pieces[i..][1..] == pieces[i + 1..];
      ghost var before, entries := buf[..], table.Entries();
      match pieces[i] {
        case Name(name) =>
          ghost var e := Encode(entries, true, bufLen, j, name);
          EncodeSize(entries, true, bufLen, j, name);
          r := DnsnameToLabels(buf, bufLen, j, name, table);
          if r.Overran? || r.value < 0 {
            return;
          }
          WrotePrefix(buf[..], before, j, e.bytes);
          j := r.value;
        case Data(bytes) =>
          if j + |bytes| > bufLen {
            return Returned(-1);
          }
          PutBytes(buf, j, bytes);
          WrotePrefix(buf[..], before, j, bytes);
          j := j + |bytes|;
      }
    }
    return Returned(j);
  }

  /** The table only grows, and every name in it keeps its tails with it. */
  lemma {:induction false} TableGrows(m: Message, bufLen: nat, pieces: seq<Piece>)
    requires PutAll(m, bufLen, pieces).Some?
    ensures var now := PutAll(m, bufLen, pieces).value.entries;
      m.entries <= now && (Closed(m.entries) && |now| < MAX_LABELS ==> Closed(now))
    decreases |pieces|
  {
    hide Encode, Closed;
    if pieces != [] {
      var next := Put(m, bufLen, pieces[0]).value;
      TableGrows(next, bufLen, pieces[1..]);
      if pieces[0].Name? {
        EncodeGrows(m.entries, bufLen, |m.bytes|, pieces[0].name);
        if Closed(m.entries) && |next.entries| < MAX_LABELS {
          StaysClosed(m.entries, bufLen, |m.bytes|, pieces[0].name);
        }
      }
    }
  }

  lemma EncodeGrows(entries: seq<Entry>, bufLen: nat, j: nat, name: seq<byte>)
    ensures entries <= Encode(entries, true, bufLen, j, name).entries
  {
    hide EncodeFrom;
    EntriesGrow(entries, bufLen, j, name);
  }

  lemma {:induction false} PutInTwo(m: Message, bufLen: nat, pieces: seq<Piece>, k: nat)
    requires k <= |pieces| && PutAll(m, bufLen, pieces).Some?
    ensures PutAll(m, bufLen, pieces[..k]).Some?
    ensures PutAll(PutAll(m, bufLen, pieces[..k]).value, bufLen, pieces[k..]) == PutAll(m, bufLen, pieces)
    decreases k
  {
    hide Put;
    if k > 0 {
      assert pieces[..k][0] == pieces[0] && pieces[..k][1..] == pieces[1..][..k - 1] && pieces[1..][k - 1..] == pieces[k..];
      PutInTwo(Put(m, bufLen, pieces[0]).value, bufLen, pieces[1..], k - 1);
    } else {
      assert pieces[0..] == pieces;
    }
  }

  /**
   In a message whose table has room left in the end, a name that was in it before, as a whole or
   as what follows a dot of another name, takes two bytes, and no place in the table.
   */
  lemma {:induction false} RepeatsTakeTwoBytes(bufLen: nat, pieces: seq<Piece>, i: nat, k: nat)
    requires i < k < |pieces| && pieces[i].Name? && pieces[k].Name? && IsTail(pieces[i].name, pieces[k].name)
    requires PutAll(Message([], []), bufLen, pieces).Some?
    requires |PutAll(Message([], []), bufLen, pieces).value.entries| < MAX_LABELS
    ensures var before, after := PutAll(Message([], []), bufLen, pieces[..k]), PutAll(Message([], []), bufLen, pieces[..k + 1]);
      && before.Some? && after.Some? && |after.value.bytes| == |before.value.bytes| + 2
      && after.value.entries == before.value.entries
  {
    hide Put, IsTail, Closed;
    var m0, t := Message([], []), pieces[k].name;
    NothingIsClosed();
    UpTo(m0, bufLen, pieces, i);
    UpTo(m0, bufLen, pieces, k);
    var first, before := PutAll(m0, bufLen, pieces[..i]).value, PutAll(m0, bufLen, pieces[..k]).value;
    var then_ := PutAll(m0, bufLen, pieces[..i + 1]).value;
    NameRemembered(first, bufLen, pieces[i].name, t);
    assert pieces[..k][..i + 1] == pieces[..i + 1];
    PutInTwo(m0, bufLen, pieces[..k], i + 1);
    TableGrows(then_, bufLen, pieces[..k][i + 1..]);
    StillHas(then_.entries, before.entries, t);
    TakesTwo(before, bufLen, t);
  }

  lemma NothingIsClosed()
    ensures Closed([])
  {
  }

  /** What is written before piece number `k`, and what that piece makes of it. */
  lemma {:induction false} UpTo(m: Message, bufLen: nat, pieces: seq<Piece>, k: nat)
    requires k < |pieces| && PutAll(m, bufLen, pieces).Some? && Closed(m.entries)
    requires |PutAll(m, bufLen, pieces).value.entries| < MAX_LABELS
    ensures var before, after := PutAll(m, bufLen, pieces[..k]), PutAll(m, bufLen, pieces[..k + 1]);
      && before.Some? && after.Some? && Put(before.value, bufLen, pieces[k]) == after
      && Closed(before.value.entries) && |after.value.entries| < MAX_LABELS
  {
    hide Put, Closed;
    PutInTwo(m, bufLen, pieces, k);
    PutInTwo(m, bufLen, pieces, k + 1);
    assert pieces[..k + 1][..k] == pieces[..k] && pieces[..k + 1][k..] == [pieces[k]] && [pieces[k]][1..] == [];
    PutInTwo(m, bufLen, pieces[..k + 1], k);
    var before, after := PutAll(m, bufLen, pieces[..k]).value, PutAll(m, bufLen, pieces[..k + 1]).value;
    TableGrows(before, bufLen, [pieces[k]]);
    TableGrows(after, bufLen, pieces[k + 1..]);
    TableGrows(m, bufLen, pieces[..k]);
    assert PutAll(before, bufLen, [pieces[k]]) == Put(before, bufLen, pieces[k]);
  }

  lemma NameRemembered(m: Message, bufLen: nat, name: seq<byte>, t: seq<byte>)
    requires Closed(m.entries) && IsTail(name, t) && Put(m, bufLen, Name(name)).Some?
    requires |Put(m, bufLen, Name(name)).value.entries| < MAX_LABELS
    ensures Has(Put(m, bufLen, Name(name)).value.entries, t)
  {
    hide EncodeFrom, IsTail;
    TailsRemembered(m.entries, bufLen, |m.bytes|, name);
  }

  lemma StillHas(entries: seq<Entry>, now: seq<Entry>, t: seq<byte>)
    requires Has(entries, t) && entries <= now
    ensures Has(now, t)
  {
    var i :| 0 <= i < |entries| && entries[i].v == t;
    assert now[i].v == t;
  }

  lemma TakesTwo(m: Message, bufLen: nat, t: seq<byte>)
    requires Has(m.entries, t) && Put(m, bufLen, Name(t)).Some?
    ensures var next := Put(m, bufLen, Name(t)).value; |next.bytes| == |m.bytes| + 2 && next.entries == m.entries
  {
    FindTells(m.entries, t);
  }

  /** The names of a message as they are read. */
  function NamesOf(pieces: seq<Piece>): seq<seq<byte>>
    decreases |pieces|
  {
    if pieces == [] then []
    else (if pieces[0].Name? then [WithoutFinalDot(pieces[0].name)] else []) + NamesOf(pieces[1..])
  }

  /** The characters before the first zero byte. */
  function Characters(s: seq<byte>): seq<byte> {
    if s == [] || s[0] == 0 then [] else [s[0]] + Characters(s[1..])
  }

  lemma {:induction false} CharactersAre(s: seq<byte>, name: seq<byte>)
    requires |name| < |s| && s[..|name|] == name && s[|name|] == 0 && 0 !in name
    ensures Characters(s) == name
  {
    if name != [] {
      assert s[0] == name[0] && s[1..][..|name| - 1] == name[1..];
      CharactersAre(s[1..], name[1..]);
    }
  }

  /** A well-formed name reads as its text, in the room that a name needs. */
  lemma {:induction false} NameFits(m: Message, bufLen: nat, name: seq<byte>, final: seq<byte>)
    requires 0 !in name && WellFormed(name) && Put(m, bufLen, Name(name)).Some?
    requires NameBack(final, |m.bytes|, |Put(m, bufLen, Name(name)).value.bytes|, name)
    ensures LabelsAt(final, |m.bytes|, |final|).Some?
    ensures Join(LabelsAt(final, |m.bytes|, |final|).value) == WithoutFinalDot(name)
    ensures 0 !in WithoutFinalDot(name) && |WithoutFinalDot(name)| <= MAX_NAME
    ensures NameEnd(final, |m.bytes|) == |Put(m, bufLen, Name(name)).value.bytes|
  {
    hide LabelsAt, NameEnd, Cut, WellFormed, Join, EncodeFrom;
    TextComesBack(name);
  }

  lemma DataSize(m: Message, bufLen: nat, bytes: seq<byte>)
    ensures var next := Put(m, bufLen, Data(bytes)); next.Some? ==> |next.value.bytes| == |m.bytes| + |bytes|
  {
  }

  /**
   A message written with one table is read piece by piece with name_parse, each name from where
   the piece before it ended, into memory for 255 characters and a zero byte: every name comes
   back without its final dot, and the reader ends where the writer ended.
   */
  method ReadMessage(buf: array<byte>, length: nat, bufLen: nat, pieces: seq<Piece>) returns (names: seq<seq<byte>>, end: nat)
    requires length <= buf.Length && length <= POINTER_LIMIT
    requires forall i :: 0 <= i < |pieces| && pieces[i].Name? ==> 0 !in pieces[i].name && WellFormed(pieces[i].name)
    requires PutAll(Message([], []), bufLen, pieces) != None
    requires PutAll(Message([], []), bufLen, pieces).value.bytes == buf[..length]
    ensures names == NamesOf(pieces) && end == length
  {
    hide Put, LabelsAt, NameEnd, Cut, WellFormed;
    ghost var m := Message([], []);
    ghost var final := PutAll(m, bufLen, pieces).value.bytes;
    MessageReadsBack(m, bufLen, pieces);
    names, end := [], 0;
    for i := 0 to |pieces|
      invariant end == |m.bytes| && names + NamesOf(pieces[i..]) == NamesOf(pieces)
      invariant PutAll(m, bufLen, pieces[i..]).Some? && PutAll(m, bufLen, pieces[i..]).value.bytes == final
      invariant ReadBack(final, m, bufLen, pieces[i..])
    {
      assert pieces[i..][0] == pieces[i] && pieces[i..][1..] == pieces[i + 1..];
      ghost var next := Put(m, bufLen, pieces[i]).value;
      match pieces[i] {
        case Name(name) =>
          var out := new byte[MAX_NAME + 1];
          NameFits(m, bufLen, name, final);
          var _, after := NameParse(buf, length, end, out);
          CharactersAre(out[..], WithoutFinalDot(name));
          names, end := names + [Characters(out[..])], after;
        case Data(bytes) =>
          DataSize(m, bufLen, bytes);
          end := end + |bytes|;
      }
      m := next;
    }
  }

  /**
   Every message that is written in full, and that pointers can reach all of, comes back. (A longer one
   is not read here; that is not a check of the writer or of the reader.)
   */
  method WriteAndRead(buf: array<byte>, bufLen: nat, pieces: seq<Piece>) returns (names: Option<seq<seq<byte>>>)
    requires bufLen <= buf.Length
    requires forall i :: 0 <= i < |pieces| && pieces[i].Name? ==> 0 !in pieces[i].name && WellFormed(pieces[i].name)
    modifies buf
    ensures var m := PutAll(Message([], []), bufLen, pieces);
      if m.Some? && |m.value.bytes| <= POINTER_LIMIT && !RunsOver(Message([], []), bufLen, buf.Length, pieces)
      then names == Some(NamesOf(pieces)) else names == None
  {
    var r := WriteMessage(buf, bufLen, pieces);
    if r.Overran? || r.value < 0 || r.value > POINTER_LIMIT {
      return None;
    }
    var read, _ := ReadMessage(buf, r.value, bufLen, pieces);
    return Some(read);
  }
}
