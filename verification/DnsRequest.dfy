/**
 The packet of a request: evdns_request_data_build, and what a server reads in it.
 */
module DnsRequest {
  import opened Bytes
  import opened DnsName
  import opened DnsParse
  import opened DnsRoundTrip

  const HEADER_LEN: nat := 12

  /** A number in two bytes, the higher one first: htons and memcpy. */
  function Word(n: nat): (b: seq<byte>)
    requires n < 0x1_0000
    ensures |b| == 2
  {
    [n / 256, n % 256]
  }

  /** The header of a standard query with one question and recursion desired. */
  function Header(transId: nat): (b: seq<byte>)
    requires transId < 0x1_0000
    ensures |b| == HEADER_LEN
  {
    Word(transId) + Word(0x0100) + Word(1) + Word(0) + Word(0) + Word(0)
  }

  lemma HeaderIs(transId: nat)
    requires transId < 0x1_0000
    ensures Header(transId) == [transId / 256, transId % 256, 1, 0, 0, 1, 0, 0, 0, 0, 0, 0]
  {
  }

  /** The packet for a name that can be encoded. */
  function Packet(name: seq<byte>, transId: nat, kind: nat, class_: nat): seq<byte>
    requires transId < 0x1_0000 && kind < 0x1_0000 && class_ < 0x1_0000
  {
    Header(transId) + Encode([], false, RequestLen(|name|), HEADER_LEN, name).bytes + Word(kind) + Word(class_)
  }

  /**
   evdns_request_data_build, in memory of the length that evdns_request_len says. There is always
   room, so that it fails only for a name or label that is too long.
   */
  method BuildRequest(name: seq<byte>, transId: nat, kind: nat, class_: nat) returns (r: int, buf: array<byte>)
    requires transId < 0x1_0000 && kind < 0x1_0000 && class_ < 0x1_0000
    ensures fresh(buf) && buf.Length == RequestLen(|name|)
    ensures r < 0 <==> |name| > MAX_NAME || !ShortLabels(name)
    ensures r >= 0 ==> r <= buf.Length && buf[..r] == Packet(name, transId, kind, class_)
  {
    hide Encode, ShortLabels, Header;
    buf := new byte[RequestLen(|name|)](_ => 0);
    PutBytes(buf, 0, Header(transId));
    RequestHasRoom(name);
    EncodeSize([], false, buf.Length, HEADER_LEN, name);
    ghost var before := buf[..];
    ghost var e := Encode([], false, buf.Length, HEADER_LEN, name);
    var a := DnsnameToLabels(buf, buf.Length, HEADER_LEN, name, null);
    assert EntriesOf(null) == [];
    r := a.value;
    if r < 0 {
      return;
    }
    WrotePrefix(buf[..], before, HEADER_LEN, e.bytes);
    before := buf[..];
    PutBytes(buf, r, Word(kind) + Word(class_));
    WrotePrefix(buf[..], before, r, Word(kind) + Word(class_));
    AppendMore(Header(transId) + e.bytes, Word(kind), Word(class_));
    r := r + 4;
  }

  /** The question that a server reads in the packet is the name without its final dot; before it is the header, and behind it are type and class. */
  lemma QuestionReadsBack(name: seq<byte>, transId: nat, kind: nat, class_: nat)
    requires transId < 0x1_0000 && kind < 0x1_0000 && class_ < 0x1_0000
    requires 0 !in name && WellFormed(name) && |name| <= MAX_NAME && ShortLabels(name)
    ensures var p := Packet(name, transId, kind, class_);
      && LabelsAt(p, HEADER_LEN, |p|).Some? && Join(LabelsAt(p, HEADER_LEN, |p|).value) == WithoutFinalDot(name)
      && NameEnd(p, HEADER_LEN) == |p| - 4
      && p[|p| - 4..] == [kind / 256, kind % 256, class_ / 256, class_ % 256]
      && p[..HEADER_LEN] == [transId / 256, transId % 256, 1, 0, 0, 1, 0, 0, 0, 0, 0, 0]
  {
    hide LabelsAt, NameEnd, EncodeFrom, ShortLabels, WellFormed, Cut, Join, Header;
    var header, tail := Header(transId), Word(kind) + Word(class_);
    RequestHasRoom(name);
    EncodedReads(header, [], false, RequestLen(|name|), name, HEADER_LEN);
    var q := header + Encode([], false, RequestLen(|name|), HEADER_LEN, name).bytes;
    assert Packet(name, transId, kind, class_) == q + tail;
    assert header == [transId / 256, transId % 256, 1, 0, 0, 1, 0, 0, 0, 0, 0, 0] by { HeaderIs(transId); }
    ReadsOn(q, tail, HEADER_LEN, HEADER_LEN, |q + tail|);
    TextComesBack(name);
  }
}
