/**
 Domain names in DNS messages (section 4.1.4 of RFC 1035): the encoder with its compression
 table, the decoder that follows compression pointers, and what the one makes of the other.
 */
module DnsName {
  import opened Bytes

  const MAX_LABELS: nat := 128
  const MAX_LABEL: nat := 63
  const MAX_NAME: nat := 255
  const POINTER_LIMIT: nat := 0x4000
  const DOT: byte := 46

  /** A name, or its tail from some label on, and where in the message it was written. */
  datatype Entry = Entry(v: seq<byte>, pos: nat)

  /** struct dnslabel_table */
  class LabelTable {
    var nLabels: nat
    const labels: array<Entry>

    constructor ()
      ensures Valid() && Entries() == [] && fresh(labels)
    {
      nLabels := 0;
      labels := new Entry[MAX_LABELS](_ => Entry([], 0));
    }

    ghost predicate Valid()
      reads this
    {
      nLabels <= labels.Length == MAX_LABELS
    }

    ghost function Entries(): seq<Entry>
      requires Valid()
      reads this, labels
    {
      labels[..nLabels]
    }

    /** dnslabel_table_get_pos */
    method GetPos(name: seq<byte>) returns (pos: int)
      requires Valid()
      ensures pos == Find(Entries(), name)
      ensures pos == -1 <==> forall i :: 0 <= i < nLabels ==> labels[i].v != name
      ensures pos != -1 ==> exists i :: 0 <= i < nLabels && FirstWith(Entries(), name, i) && labels[i].pos == pos
    {
      for i := 0 to nLabels
        invariant Find(Entries(), name) == Find(Entries()[i..], name)
        invariant forall k :: 0 <= k < i ==> labels[k].v != name
      {
        assert Entries()[i..][0] == labels[i] && Entries()[i..][1..] == Entries()[i + 1..];
        if labels[i].v == name {
          assert FirstWith(Entries(), name, i);
          return labels[i].pos;
        }
      }
      return -1;
    }

    /** dnslabel_table_add: a full table silently takes no more. */
    method Add(name: seq<byte>, pos: nat) returns (result: int)
      requires Valid()
      modifies this, labels
      ensures Valid() && Entries() == Added(old(Entries()), Entry(name, pos))
      ensures result == if old(nLabels) == MAX_LABELS then -1 else 0
      ensures Entries() == old(Entries()) + if result == 0 then [Entry(name, pos)] else []
    {
      if nLabels == MAX_LABELS {
        return -1;
      }
      labels[nLabels] := Entry(name, pos);
      nLabels := nLabels + 1;
      return 0;
    }
  }

  /** The first entry for a name. */
  ghost predicate FirstWith(entries: seq<Entry>, name: seq<byte>, i: nat) {
    i < |entries| && entries[i].v == name && forall j :: 0 <= j < i ==> entries[j].v != name
  }

  function Find(entries: seq<Entry>, name: seq<byte>): int {
    if entries == [] then -1
    else if entries[0].v == name then entries[0].pos
    else Find(entries[1..], name)
  }

  function Added(entries: seq<Entry>, e: Entry): seq<Entry> {
    if |entries| >= MAX_LABELS then entries else entries + [e]
  }

  /** Where the first dot is, or the length. */
  function DotAt(name: seq<byte>): (n: nat)
    ensures n <= |name| && (n < |name| ==> name[n] == DOT)
  {
    if name == [] || name[0] == DOT then 0 else 1 + DotAt(name[1..])
  }

  lemma {:induction false} NoDotBefore(name: seq<byte>, i: nat)
    requires i < DotAt(name)
    ensures name[i] != DOT
  {
    if i > 0 {
      NoDotBefore(name[1..], i - 1);
    }
  }

  /** A compression pointer: 16 bits of `ref | 0xc000`. */
  function PointerTo(ref: nat): (b: seq<byte>)
    ensures |b| == 2
  {
    var low := ref % POINTER_LIMIT;
    [0xc0 + low / 256, low % 256]
  }

  /** What a pair of bytes points at. */
  function Target(hi: byte, lo: byte): nat {
    (hi % 64) * 256 + lo
  }

  /** A pointer reaches what it was made for exactly when that is in the first 2^14 bytes. */
  lemma {:induction false} PointerReaches(ref: nat)
    ensures 64 <= PointerTo(ref)[0]
    ensures Target(PointerTo(ref)[0], PointerTo(ref)[1]) == ref <==> ref < POINTER_LIMIT
  {
    var low := ref % POINTER_LIMIT;
    assert Target(PointerTo(ref)[0], PointerTo(ref)[1]) == low;
  }

  /** The first label of a name, with its length before it. */
  function FirstLabel(name: seq<byte>): (part: seq<byte>)
    requires DotAt(name) <= MAX_LABEL
    ensures |part| == DotAt(name) + 1
  {
    [DotAt(name)] + name[..DotAt(name)]
  }

  /** What the encoder answers, the bytes it writes, and the table it leaves. */
  datatype Encoded = Encoded(result: int, bytes: seq<byte>, entries: seq<Entry>)

  function EncodeFrom(entries: seq<Entry>, hasTable: bool, bufLen: nat, j: nat, name: seq<byte>): Encoded
    decreases |name|
  {
    var ref := if hasTable then Find(entries, name) else -1;
    if ref >= 0 then
      if j + 2 > bufLen then Encoded(-2, [], entries) else Encoded(j + 2, PointerTo(ref), entries)
    else
      var n := DotAt(name);
      if n > MAX_LABEL then Encoded(-1, [], entries)
      else if j + n + 1 > bufLen then Encoded(-2, [], entries)
      else
        var more := if hasTable then Added(entries, Entry(name, j)) else entries;
        var part := FirstLabel(name);
        if n == |name| then
          var bytes := if part[n] != 0 then part + [0] else part;
          Encoded(j + |bytes|, bytes, more)
        else
          var rest := EncodeFrom(more, hasTable, bufLen, j + n + 1, name[n + 1..]);
          rest.(bytes := part + rest.bytes)
  }

  lemma {:induction false} EncodeSize(entries: seq<Entry>, hasTable: bool, bufLen: nat, j: nat, name: seq<byte>)
    ensures var e := EncodeFrom(entries, hasTable, bufLen, j, name);
      e.result >= 0 ==> e.result == j + |e.bytes|
    ensures var e := Encode(entries, hasTable, bufLen, j, name);
      e.result >= 0 ==> e.result == j + |e.bytes|
    decreases |name|
  {
    hide Find, Added, DotAt, FirstLabel;
    var n := DotAt(name);
    if n < |name| {
      var more := if hasTable then Added(entries, Entry(name, j)) else entries;
      EncodeSize(more, hasTable, bufLen, j + n + 1, name[n + 1..]);
    }
  }

  /** What a call comes to: what it returns, or that it writes its last byte behind the memory. */
  datatype Answer = Returned(value: int) | Overran

  function AnswerOf(e: Encoded, size: nat): Answer {
    if e.result > size then Overran else Returned(e.result)
  }

  /** What is written inside the memory. */
  function InMemory(e: Encoded, size: nat): seq<byte> {
    if e.result > size && e.bytes != [] then e.bytes[..|e.bytes| - 1] else e.bytes
  }

  /** No label of the name is too long for its length byte. */
  predicate ShortLabels(name: seq<byte>)
    decreases |name|
  {
    DotAt(name) <= MAX_LABEL && (DotAt(name) == |name| || ShortLabels(name[DotAt(name) + 1..]))
  }

  /** Neither the name nor its tail from any label on is in the table. */
  predicate Unknown(entries: seq<Entry>, name: seq<byte>)
    decreases |name|
  {
    Find(entries, name) < 0 && (DotAt(name) == |name| || Unknown(entries, name[DotAt(name) + 1..]))
  }

  /** The last label of the name is there and not followed by a dot or zero byte of its own. */
  predicate LacksEnd(name: seq<byte>) {
    name != [] && name[|name| - 1] != DOT && name[|name| - 1] != 0
  }

  /** An entry for a longer name does not matter for what is found. */
  lemma {:induction false} FindInMore(entries: seq<Entry>, e: Entry, name: seq<byte>)
    requires e.v != name
    ensures Find(Added(entries, e), name) == Find(entries, name)
  {
    if entries != [] && |entries| < MAX_LABELS {
      assert (entries + [e])[1..] == entries[1..] + [e];
      FindInMore(entries[1..], e, name);
    }
  }

  lemma {:induction false} UnknownInMore(entries: seq<Entry>, e: Entry, name: seq<byte>)
    requires |name| < |e.v|
    ensures Unknown(Added(entries, e), name) <==> Unknown(entries, name)
    decreases |name|
  {
    hide Find, Added;
    FindInMore(entries, e, name);
    if DotAt(name) < |name| {
      UnknownInMore(entries, e, name[DotAt(name) + 1..]);
    }
  }

  lemma {:induction false} EndOfRest(name: seq<byte>)
    ensures var n := DotAt(name);
      if n < |name| then LacksEnd(name) <==> LacksEnd(name[n + 1..])
      else LacksEnd(name) ==> n > 0 && name[n - 1] != 0
    ensures DotAt(name) == |name| > 0 && name[|name| - 1] != 0 ==> LacksEnd(name)
  {
    var n := DotAt(name);
    if n == |name| > 0 {
      NoDotBefore(name, n - 1);
    }
  }

  /**
   When the encoder writes past the size it was given, for all names, tables and places: exactly
   when the name has no end of its own, none of its tails is in the table, and everything but the
   final zero byte just fits. It is then that byte alone.
   */
  lemma {:induction false} PastTheSize(entries: seq<Entry>, hasTable: bool, bufLen: nat, j: nat, name: seq<byte>)
    ensures var r := EncodeFrom(entries, hasTable, bufLen, j, name).result;
      && (r > bufLen <==>
        ShortLabels(name) && (hasTable ==> Unknown(entries, name)) && LacksEnd(name) && j + |name| + 1 == bufLen)
      && r <= bufLen + 1
    decreases |name|
  {
    hide Find, Added, DotAt, LacksEnd;
    var n := DotAt(name);
    EndOfRest(name);
    if n <= MAX_LABEL && j + n + 1 <= bufLen {
      if n < |name| {
        var more := if hasTable then Added(entries, Entry(name, j)) else entries;
        PastTheSize(more, hasTable, bufLen, j + n + 1, name[n + 1..]);
        UnknownInMore(entries, Entry(name, j), name[n + 1..]);
      } else if n > 0 {
        assert FirstLabel(name)[n] == name[n - 1];
      }
    }
  }

  /** The same of whole calls. */
  lemma OverrunsExactlyWhen(entries: seq<Entry>, hasTable: bool, bufLen: nat, j: nat, name: seq<byte>)
    ensures AnswerOf(Encode(entries, hasTable, bufLen, j, name), bufLen) == Overran <==>
      && |name| <= MAX_NAME && ShortLabels(name) && (hasTable ==> Unknown(entries, name))
      && LacksEnd(name) && j + |name| + 1 == bufLen
    ensures Encode(entries, hasTable, bufLen, j, name).result <= bufLen + 1
  {
    PastTheSize(entries, hasTable, bufLen, j, name);
  }

  /** In any size there is a place where a name overruns it: three letters put four bytes before its end. */
  lemma {:induction false} LastNameOverruns(entries: seq<Entry>, bufLen: nat)
    requires bufLen >= 4 && forall e :: e in entries ==> e.v != [97, 98, 99]
    ensures AnswerOf(Encode(entries, true, bufLen, bufLen - 4, [97, 98, 99]), bufLen) == Overran
    ensures Encode([], false, 5, 1, [97, 98, 99]).result == 6
  {
    var name := [97, 98, 99];
    assert name[1..] == [98, 99] && name[1..][1..] == [99] && name[1..][1..][1..] == [];
    assert DotAt(name) == 3;
    NotFound(entries, name);
    OverrunsExactlyWhen(entries, true, bufLen, bufLen - 4, name);
    OverrunsExactlyWhen([], false, 5, 1, name);
  }

  lemma {:induction false} NotFound(entries: seq<Entry>, name: seq<byte>)
    requires forall e :: e in entries ==> e.v != name
    ensures Find(entries, name) == -1
  {
    if entries != [] {
      assert entries[0] in entries;
      NotFound(entries[1..], name);
    }
  }

  /** Without a table and with room for all its characters, a name only fails for its labels. */
  lemma {:induction false} PlainSize(bufLen: nat, j: nat, name: seq<byte>)
    requires j + |name| + 1 <= bufLen
    ensures EncodeFrom([], false, bufLen, j, name).result ==
      if !ShortLabels(name) then -1 else j + |name| + if LacksEnd(name) then 2 else 1
    decreases |name|
  {
    hide DotAt, LacksEnd;
    var n := DotAt(name);
    EndOfRest(name);
    if n < |name| {
      PlainSize(bufLen, j + n + 1, name[n + 1..]);
    } else if n == 0 {
      assert !LacksEnd(name) by { NoEnd(name); }
    } else if n <= MAX_LABEL {
      assert FirstLabel(name)[n] == name[n - 1];
    }
  }

  lemma NoEnd(name: seq<byte>)
    ensures LacksEnd(name) ==> name != []
  {
  }

  /** evdns_request_len */
  function RequestLen(nameLen: nat): nat {
    96 + nameLen + 2 + 4
  }

  /**
   A request always has room for its name behind the twelve bytes of the header, and for the type
   and class behind that; it is refused only for a name or label that is too long.
   */
  lemma RequestHasRoom(name: seq<byte>)
    ensures var r := Encode([], false, RequestLen(|name|), 12, name).result;
      && (r < 0 <==> |name| > MAX_NAME || !ShortLabels(name))
      && r + 4 <= RequestLen(|name|)
  {
    PlainSize(RequestLen(|name|), 12, name);
  }

  function Encode(entries: seq<Entry>, hasTable: bool, bufLen: nat, j: nat, name: seq<byte>): Encoded {
    if |name| > MAX_NAME then Encoded(-2, [], entries) else EncodeFrom(entries, hasTable, bufLen, j, name)
  }

  // ---- Compression ----

  /** A name, or what follows one of its dots. */
  predicate IsTail(name: seq<byte>, t: seq<byte>)
    decreases |name|
  {
    t == name || (DotAt(name) < |name| && IsTail(name[DotAt(name) + 1..], t))
  }

  /** The table has an entry for this name. */
  ghost predicate Has(entries: seq<Entry>, name: seq<byte>) {
    exists i :: 0 <= i < |entries| && entries[i].v == name
  }

  /** With a name the table has all its tails. */
  ghost predicate Closed(entries: seq<Entry>) {
    forall i, t :: 0 <= i < |entries| && IsTail(entries[i].v, t) ==> Has(entries, t)
  }

  lemma {:induction false} FindTells(entries: seq<Entry>, name: seq<byte>)
    ensures Find(entries, name) >= 0 <==> Has(entries, name)
    ensures forall i: nat :: FirstWith(entries, name, i) ==> Find(entries, name) == entries[i].pos
  {
    if entries != [] {
      var rest := entries[1..];
      FindTells(rest, name);
      if i :| 0 <= i < |rest| && rest[i].v == name {
        assert entries[i + 1].v == name;
      }
      if i :| 0 < i < |entries| && entries[i].v == name {
        assert rest[i - 1].v == name;
      }
      forall i: nat | FirstWith(entries, name, i)
        ensures Find(entries, name) == entries[i].pos
      {
        if i > 0 {
          assert rest[i - 1] == entries[i] && forall j :: 0 <= j < i - 1 ==> rest[j] == entries[j + 1];
          assert FirstWith(rest, name, i - 1);
        }
      }
    }
  }

  lemma {:induction false} TailOfTail(name: seq<byte>, t: seq<byte>, u: seq<byte>)
    requires IsTail(name, t) && IsTail(t, u)
    ensures IsTail(name, u) && |u| <= |name|
    decreases |name|
  {
    TailShorter(t, u);
    TailShorter(name, t);
    if t != name {
      TailOfTail(name[DotAt(name) + 1..], t, u);
    }
  }

  lemma {:induction false} TailShorter(name: seq<byte>, t: seq<byte>)
    requires IsTail(name, t)
    ensures |t| <= |name| && (|t| == |name| ==> t == name)
    decreases |name|
  {
    if t != name {
      TailShorter(name[DotAt(name) + 1..], t);
    }
  }

  /** What the table had stays where it was, and what it had not, and is asked about, is new. */
  lemma HasMore(entries: seq<Entry>, e: Entry, name: seq<byte>)
    requires |entries| < MAX_LABELS
    ensures Has(Added(entries, e), name) <==> Has(entries, name) || name == e.v
    ensures forall i: nat :: FirstWith(entries, name, i) ==> FirstWith(Added(entries, e), name, i)
    ensures !Has(entries, name) && name == e.v ==> FirstWith(Added(entries, e), name, |entries|)
  {
    var more := Added(entries, e);
    assert forall i :: 0 <= i < |entries| ==> more[i] == entries[i];
    assert more[|entries|] == e;
  }

  lemma {:induction false} EntriesGrow(entries: seq<Entry>, bufLen: nat, j: nat, name: seq<byte>)
    ensures entries <= EncodeFrom(entries, true, bufLen, j, name).entries
    decreases |name|
  {
    hide Find, DotAt, FirstLabel, PointerTo;
    if DotAt(name) < |name| {
      EntriesGrow(Added(entries, Entry(name, j)), bufLen, j + DotAt(name) + 1, name[DotAt(name) + 1..]);
    }
  }

  /** Of the name's tails, those the table has bring all their own tails with them. */
  ghost predicate TailsWithTails(entries: seq<Entry>, name: seq<byte>) {
    forall t, u :: IsTail(name, t) && IsTail(t, u) && Has(entries, t) ==> Has(entries, u)
  }

  /** The entries from `from` on are tails of the name, each where it was written and none there before it. */
  ghost predicate NewTails(now: seq<Entry>, from: nat, j: nat, name: seq<byte>) {
    forall i :: from <= i < |now| ==>
      IsTail(name, now[i].v) && now[i].pos == j + |name| - |now[i].v| && FirstWith(now, now[i].v, i)
  }

  lemma RestWithTails(entries: seq<Entry>, e: Entry, rest: seq<byte>)
    requires |entries| < MAX_LABELS && |rest| < |e.v| && DotAt(e.v) < |e.v| && rest == e.v[DotAt(e.v) + 1..]
    requires TailsWithTails(entries, e.v)
    ensures TailsWithTails(Added(entries, e), rest)
  {
    hide Added, DotAt, Has;
    forall t, u | IsTail(rest, t) && IsTail(t, u) && Has(Added(entries, e), t)
      ensures Has(Added(entries, e), u)
    {
      TailShorter(rest, t);
      assert IsTail(e.v, t);
      HasMore(entries, e, t);
      HasMore(entries, e, u);
    }
  }

  lemma {:induction false} NewTailFirst(entries: seq<Entry>, now: seq<Entry>, e: Entry, rest: seq<byte>, j: nat)
    requires |entries| < MAX_LABELS && !Has(entries, e.v) && Added(entries, e) <= now && |rest| < |e.v|
    requires DotAt(e.v) < |e.v| && rest == e.v[DotAt(e.v) + 1..] && j == e.pos + DotAt(e.v) + 1
    requires NewTails(now, |entries| + 1, j, rest)
    ensures NewTails(now, |entries|, e.pos, e.v)
  {
    hide DotAt;
    forall i | |entries| <= i < |now|
      ensures IsTail(e.v, now[i].v) && now[i].pos == e.pos + |e.v| - |now[i].v| && FirstWith(now, now[i].v, i)
    {
      assert now[|entries|] == e;
      assert forall k :: 0 <= k < |entries| ==> now[k] == entries[k];
      if i > |entries| {
        TailShorter(rest, now[i].v);
      }
    }
  }

  lemma TailsHad(entries: seq<Entry>, name: seq<byte>)
    requires TailsWithTails(entries, name) && Has(entries, name)
    ensures forall t :: IsTail(name, t) ==> Has(entries, t)
  {
    assert IsTail(name, name);
  }

  lemma AddedMore(entries: seq<Entry>, e: Entry)
    requires |entries| < MAX_LABELS
    ensures |Added(entries, e)| == |entries| + 1 && entries <= Added(entries, e)
    ensures Added(entries, e)[|entries|] == e
  {
  }

  lemma NewHad(entries: seq<Entry>, now: seq<Entry>, e: Entry)
    requires |entries| < MAX_LABELS && Added(entries, e) <= now
    ensures Has(now, e.v)
  {
    assert now[|entries|] == Added(entries, e)[|entries|];
  }

  lemma OnlyNew(entries: seq<Entry>, e: Entry)
    requires |entries| < MAX_LABELS && !Has(entries, e.v)
    ensures NewTails(Added(entries, e), |entries|, e.pos, e.v)
  {
  }

  lemma NoneNew(entries: seq<Entry>, j: nat, name: seq<byte>)
    ensures NewTails(entries, |entries|, j, name)
  {
  }

  /**
   The encoder leaves a table that has the name and all its tails: each with the first entry it had,
   or else with a new one, for where it was written.
   */
  lemma {:induction false} TailsRemembered(entries: seq<Entry>, bufLen: nat, j: nat, name: seq<byte>)
    requires TailsWithTails(entries, name) && EncodeFrom(entries, true, bufLen, j, name).result >= 0
    requires |EncodeFrom(entries, true, bufLen, j, name).entries| < MAX_LABELS
    ensures var now := EncodeFrom(entries, true, bufLen, j, name).entries;
      entries <= now && NewTails(now, |entries|, j, name) && forall t :: IsTail(name, t) ==> Has(now, t)
    decreases |name|
  {
    hide FirstLabel, PointerTo, Added, Find, DotAt, TailsWithTails, NewTails, Has;
    var now, n, e := EncodeFrom(entries, true, bufLen, j, name).entries, DotAt(name), Entry(name, j);
    FindTells(entries, name);
    EntriesGrow(entries, bufLen, j, name);
    if Has(entries, name) {
      TailsHad(entries, name);
      NoneNew(entries, j, name);
    } else if n < |name| {
      EntriesGrow(Added(entries, e), bufLen, j + n + 1, name[n + 1..]);
      AddedMore(entries, e);
      RestWithTails(entries, e, name[n + 1..]);
      TailsRemembered(Added(entries, e), bufLen, j + n + 1, name[n + 1..]);
      NewTailFirst(entries, now, e, name[n + 1..], j + n + 1);
      NewHad(entries, now, e);
    } else {
      AddedMore(entries, e);
      NewHad(entries, now, e);
      OnlyNew(entries, e);
    }
  }

  /** So a table in which every name has its tails with it stays one. */
  lemma {:induction false} StaysClosed(entries: seq<Entry>, bufLen: nat, j: nat, name: seq<byte>)
    requires Closed(entries) && Encode(entries, true, bufLen, j, name).result >= 0
    requires |Encode(entries, true, bufLen, j, name).entries| < MAX_LABELS
    ensures Closed(Encode(entries, true, bufLen, j, name).entries)
  {
    hide EncodeFrom, IsTail;
    var now := Encode(entries, true, bufLen, j, name).entries;
    TailsRemembered(entries, bufLen, j, name);
    forall i, t | 0 <= i < |now| && IsTail(now[i].v, t)
      ensures Has(now, t)
    {
      if i >= |entries| {
        TailOfTail(name, now[i].v, t);
      } else if k :| 0 <= k < |entries| && entries[k].v == t {
        assert now[k].v == t;
      }
    }
  }

  /**
   Compression: once a name is written with a table that then has room left, the name, and what
   follows any of its dots, takes just two bytes when it is written again, whatever place and
   size: a pointer to its first place. That is where it was written just now, unless it
   was in the table before.
   */
  lemma {:induction false} WrittenAgain(entries: seq<Entry>, bufLen: nat, j: nat, name: seq<byte>, t: seq<byte>, size: nat, at: nat)
    requires Closed(entries) && Encode(entries, true, bufLen, j, name).result >= 0
    requires |Encode(entries, true, bufLen, j, name).entries| < MAX_LABELS
    requires IsTail(name, t) && at + 2 <= size
    ensures var now := Encode(entries, true, bufLen, j, name).entries;
      var again := Encode(now, true, size, at, t);
      && again.result == at + 2 && again.entries == now && |t| <= |name|
      && (!Has(entries, t) ==> again.bytes == PointerTo(j + |name| - |t|))
      && forall i: nat :: FirstWith(entries, t, i) ==> again.bytes == PointerTo(entries[i].pos)
  {
    hide IsTail, DotAt, FirstLabel, PointerTo, Find, Added;
    var now := Encode(entries, true, bufLen, j, name).entries;
    TailShorter(name, t);
    TailsRemembered(entries, bufLen, j, name);
    FindTells(now, t);
    FirstOf(now, t);
    if i: nat :| FirstWith(entries, t, i) {
      assert FirstWith(now, t, i);
    }
  }

  lemma {:induction false} FirstOf(entries: seq<Entry>, name: seq<byte>)
    requires Has(entries, name)
    ensures exists i: nat :: FirstWith(entries, name, i)
  {
    var i :| 0 <= i < |entries| && entries[i].v == name;
    if k :| 0 <= k < i && entries[k].v == name {
      assert entries[..i][k] == entries[k];
      FirstOf(entries[..i], name);
      var m: nat :| FirstWith(entries[..i], name, m);
      assert FirstWith(entries, name, m);
    } else {
      assert FirstWith(entries, name, i);
    }
  }

  ghost function Storage(table: LabelTable?): set<object> {
    if table == null then {} else {table, table.labels}
  }

  ghost function EntriesOf(table: LabelTable?): seq<Entry>
    requires table != null ==> table.Valid()
    reads table, Storage(table)
  {
    if table == null then [] else table.Entries()
  }

  /** `buf` is what it was, with `bytes` written from `j` on. */
  ghost predicate Wrote(now: seq<byte>, before: seq<byte>, j: nat, bytes: seq<byte>) {
    |now| == |before| && j + |bytes| <= |now| && now == before[..j] + bytes + before[j + |bytes|..]
  }

  lemma WroteMore(now: seq<byte>, mid: seq<byte>, before: seq<byte>, j: nat, a: seq<byte>, b: seq<byte>)
    requires Wrote(mid, before, j, a) && Wrote(now, mid, j + |a|, b)
    ensures Wrote(now, before, j, a + b)
  {
  }

  lemma WroteNothing(s: seq<byte>, j: nat)
    requires j <= |s|
    ensures Wrote(s, s, j, [])
  {
  }

  lemma WrotePrefix(now: seq<byte>, before: seq<byte>, j: nat, bytes: seq<byte>)
    requires Wrote(now, before, j, bytes)
    ensures now[..j + |bytes|] == before[..j] + bytes
  {
  }

  method PutBytes(buf: array<byte>, j: nat, bytes: seq<byte>)
    requires j + |bytes| <= buf.Length
    modifies buf
    ensures Wrote(buf[..], old(buf[..]), j, bytes)
  {
    forall i | 0 <= i < |bytes| {
      buf[j + i] := bytes[i];
    }
  }

  lemma NoEntries(table: LabelTable?)
    requires table != null ==> table.Valid()
    ensures table == null ==> EntriesOf(table) == []
  {
  }

  /** The position of `name` in the table, if there is a table and it is there. */
  method Lookup(table: LabelTable?, name: seq<byte>) returns (ref: int)
    requires table != null ==> table.Valid()
    ensures ref == if table != null then Find(EntriesOf(table), name) else -1
  {
    ref := -1;
    if table != null {
      ref := table.GetPos(name);
    }
  }

  /** Write a pointer behind what is written already. */
  method PutPointer(buf: array<byte>, j: nat, ref: nat, ghost table: LabelTable?, ghost origin: seq<byte>, ghost start: nat, ghost done: seq<byte>)
    requires j + 2 <= buf.Length && j == start + |done| && Wrote(buf[..], origin, start, done)
    requires table != null ==> table.Valid()
    modifies buf
    ensures table != null ==> table.Valid()
    ensures EntriesOf(table) == old(EntriesOf(table)) && Wrote(buf[..], origin, start, done + PointerTo(ref))
  {
    hide Wrote;
    PutBytes(buf, j, PointerTo(ref));
    WroteMore(buf[..], old(buf[..]), origin, start, done, PointerTo(ref));
  }

  /** Remember where `name` is, and write its first label. */
  method PutLabel(buf: array<byte>, j: nat, name: seq<byte>, table: LabelTable?, ghost origin: seq<byte>, ghost start: nat, ghost done: seq<byte>)
    requires table != null ==> table.Valid()
    requires DotAt(name) <= MAX_LABEL && j + DotAt(name) + 1 <= buf.Length
    requires j == start + |done| && Wrote(buf[..], origin, start, done)
    modifies buf, Storage(table)
    ensures table != null ==> table.Valid()
    ensures EntriesOf(table) == if table != null then Added(old(EntriesOf(table)), Entry(name, j)) else []
    ensures Wrote(buf[..], origin, start, done + FirstLabel(name)) && buf[j + DotAt(name)] == FirstLabel(name)[DotAt(name)]
  {
    hide FirstLabel;
    if table != null {
      var _ := table.Add(name, j);
    }
    PutBytes(buf, j, FirstLabel(name));
    assert buf[j + DotAt(name)] == buf[..][j + DotAt(name)];
    WroteMore(buf[..], old(buf[..]), origin, start, done, FirstLabel(name));
  }

  /** A name that did not end in a dot still lacks its zero byte; there may be no memory left for it. */
  method Terminate(buf: array<byte>, j: nat, ghost table: LabelTable?, ghost origin: seq<byte>, ghost start: nat, ghost done: seq<byte>)
      returns (r: Answer)
    requires 0 < j <= buf.Length && j == start + |done| && Wrote(buf[..], origin, start, done)
    requires table != null ==> table.Valid()
    modifies buf
    ensures table != null ==> table.Valid()
    ensures EntriesOf(table) == old(EntriesOf(table))
    ensures r == if old(buf[j - 1]) == 0 then Returned(j) else if j == buf.Length then Overran else Returned(j + 1)
    ensures Wrote(buf[..], origin, start, if r == Returned(j + 1) then done + [0] else done)
  {
    hide Wrote;
    if buf[j - 1] == 0 {
      return Returned(j);
    }
    if j == buf.Length {
      return Overran;
    }
    PutBytes(buf, j, [0]);
    WroteMore(buf[..], old(buf[..]), origin, start, done, [0]);
    r := Returned(j + 1);
  }

  /** What `e` still asks for once `done` is written and the encoder is at `name`. */
  ghost predicate Ahead(e: Encoded, entries: seq<Entry>, hasTable: bool, bufLen: nat, j: nat, name: seq<byte>, done: seq<byte>) {
    var f := EncodeFrom(entries, hasTable, bufLen, j, name);
    e == f.(bytes := done + f.bytes)
  }

  lemma AheadStart(entries: seq<Entry>, hasTable: bool, bufLen: nat, j: nat, name: seq<byte>)
    ensures var e := Encode(entries, hasTable, bufLen, j, name);
      if |name| > MAX_NAME then e == Encoded(-2, [], entries) else Ahead(e, entries, hasTable, bufLen, j, name, [])
  {
  }

  lemma {:induction false} AheadStep(e: Encoded, entries: seq<Entry>, hasTable: bool, bufLen: nat, j: nat, name: seq<byte>, done: seq<byte>)
    requires Ahead(e, entries, hasTable, bufLen, j, name, done)
    ensures var ref := if hasTable then Find(entries, name) else -1;
      var n := DotAt(name);
      if ref >= 0 then
        e == if j + 2 > bufLen then Encoded(-2, done, entries) else Encoded(j + 2, done + PointerTo(ref), entries)
      else if n > MAX_LABEL then e == Encoded(-1, done, entries)
      else if j + n + 1 > bufLen then e == Encoded(-2, done, entries)
      else
        var more := if hasTable then Added(entries, Entry(name, j)) else entries;
        var part := FirstLabel(name);
        if n < |name| then Ahead(e, more, hasTable, bufLen, j + n + 1, name[n + 1..], done + part)
        else e == if part[n] != 0 then Encoded(j + n + 2, done + part + [0], more) else Encoded(j + n + 1, done + part, more)
  {
    hide Find, Added, PointerTo, DotAt, FirstLabel;
    var ref, n := if hasTable then Find(entries, name) else -1, DotAt(name);
    AppendNothing(done);
    if ref < 0 && n <= MAX_LABEL && j + n + 1 <= bufLen {
      var part := FirstLabel(name);
      if n < |name| {
        var more := if hasTable then Added(entries, Entry(name, j)) else entries;
        AppendMore(done, part, EncodeFrom(more, hasTable, bufLen, j + n + 1, name[n + 1..]).bytes);
      } else {
        AppendMore(done, part, [0]);
      }
    }
  }

  lemma AppendMore(a: seq<byte>, b: seq<byte>, c: seq<byte>)
    ensures a + (b + c) == a + b + c
  {
  }

  lemma AppendNothing(a: seq<byte>)
    ensures a + [] == a
  {
  }

  /**
   dnsname_to_labels, in memory of at least `bufLen` bytes. The final zero byte is not counted
   against `bufLen`: when it belongs behind the memory, that write is an outcome of its own.
   OverrunsExactlyWhen says when the encoding passes `bufLen`.
   */
  method DnsnameToLabels(buf: array<byte>, bufLen: nat, start: nat, whole: seq<byte>, table: LabelTable?) returns (r: Answer)
    requires bufLen <= buf.Length && start <= buf.Length
    requires table != null ==> table.Valid()
    modifies buf, Storage(table)
    ensures table != null ==> table.Valid()
    ensures r == AnswerOf(Encode(old(EntriesOf(table)), table != null, bufLen, start, whole), buf.Length)
    ensures EntriesOf(table) == Encode(old(EntriesOf(table)), table != null, bufLen, start, whole).entries
    ensures Wrote(buf[..], old(buf[..]), start, InMemory(Encode(old(EntriesOf(table)), table != null, bufLen, start, whole), buf.Length))
  {
    hide Wrote, Find, Added, PointerTo, EntriesOf, LabelTable.Valid, EncodeFrom, Ahead, DotAt, FirstLabel, Encode;
    WroteNothing(buf[..], start);
    AheadStart(EntriesOf(table), table != null, bufLen, start, whole);
    if |whole| > MAX_NAME {
      return Returned(-2);
    }
    var name, j := whole, start;
    ghost var e := Encode(EntriesOf(table), table != null, bufLen, start, whole);
    ghost var done: seq<byte> := [];
    NoEntries(table);
    while true
      invariant table != null ==> table.Valid()
      invariant j == start + |done| <= buf.Length && Wrote(buf[..], old(buf[..]), start, done)
      invariant Ahead(e, EntriesOf(table), table != null, bufLen, j, name, done)
      invariant table == null ==> EntriesOf(table) == []
      decreases |name|
    {
      AheadStep(e, EntriesOf(table), table != null, bufLen, j, name, done);
      var ref := Lookup(table, name);
      if ref >= 0 {
        if j + 2 > bufLen {
          return Returned(-2);
        }
        PutPointer(buf, j, ref, table, old(buf[..]), start, done);
        return Returned(j + 2);
      }
      var n := DotAt(name);
      if n > MAX_LABEL {
        return Returned(-1);
      }
      if j + n + 1 > bufLen {
        return Returned(-2);
      }
      PutLabel(buf, j, name, table, old(buf[..]), start, done);
      j := j + n + 1;
      done := done + FirstLabel(name);
      if n == |name| {
        WithoutLast(done, 0);
        r := Terminate(buf, j, table, old(buf[..]), start, done);
        return;
      }
      name := name[n + 1..];
    }
  }

  lemma WithoutLast(s: seq<byte>, x: byte)
    ensures (s + [x])[..|s|] == s
  {
  }

  /** What is added can be found again, where nothing stood for the name before. */
  method AddAndGet(table: LabelTable, name: seq<byte>, pos: nat) returns (result: int, found: int)
    requires table.Valid() && !Has(table.Entries(), name)
    modifies table, table.labels
    ensures result == if old(table.nLabels) == MAX_LABELS then -1 else 0
    ensures found == if result == 0 then pos else -1
  {
    result := table.Add(name, pos);
    if result == 0 {
      assert FirstWith(table.Entries(), name, table.nLabels - 1);
    }
    found := table.GetPos(name);
  }

  /** The name `a`, twice in a message. */
  method WriteTwice() returns (buf: array<byte>, first: Answer, second: Answer)
    ensures first == Returned(15) && second == Returned(17)
    ensures buf.Length == 100 && buf[12..17] == [1, 97, 0, 0xc0, 12]
  {
    buf := new byte[100];
    var table := new LabelTable();
    first := DnsnameToLabels(buf, 100, 12, [97], table);
    second := DnsnameToLabels(buf, 100, 15, [97], table);
  }
}
