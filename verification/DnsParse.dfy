/**
 Reading a possibly compressed domain name out of a DNS message: name_parse.
 */
module DnsParse {
  import opened Bytes
  import opened DnsName

  type Labels = seq<seq<byte>>

  /**
   The labels of the name at `j`, if the message has a well-formed name there that can be read
   with at most `hops` jumps. Any length byte with one of its two high bits set is a pointer.
   */
  ghost function LabelsAt(p: seq<byte>, j: nat, hops: nat): Option<Labels>
    decreases hops, |p| - j
  {
    if j >= |p| then None
    else if p[j] == 0 then Some([])
    else if p[j] >= 64 then
      if j + 1 >= |p| || Target(p[j], p[j + 1]) >= |p| || hops == 0 then None
      else LabelsAt(p, Target(p[j], p[j + 1]), hops - 1)
    else if j + 1 + p[j] > |p| then None
    else Cons(p[j + 1..j + 1 + p[j]], LabelsAt(p, j + 1 + p[j], hops))
  }

  ghost function Cons(l: seq<byte>, rest: Option<Labels>): Option<Labels> {
    if rest.None? then None else Some([l] + rest.value)
  }

  /** Where the bytes of the name at `j` end: after its zero byte, or after its first pointer. */
  ghost function NameEnd(p: seq<byte>, j: nat): (e: nat)
    ensures e >= j
    decreases |p| - j
  {
    if j >= |p| then j
    else if p[j] == 0 then j + 1
    else if p[j] >= 64 then j + 2
    else NameEnd(p, j + 1 + p[j])
  }

  /** Labels with dots between them. */
  function Join(labels: Labels): seq<byte> {
    if labels == [] then [] else if |labels| == 1 then labels[0] else labels[0] + [DOT] + Join(labels[1..])
  }

  ghost predicate NonEmpty(labels: Labels) {
    forall i :: 0 <= i < |labels| ==> labels[i] != []
  }

  /** A label put behind what is there. */
  function With(out: seq<byte>, l: seq<byte>): seq<byte> {
    (if out == [] then [] else out + [DOT]) + l
  }

  /** The labels added one after another to what is there. */
  ghost function JoinOnto(out: seq<byte>, labels: Labels): seq<byte>
    decreases |labels|
  {
    if labels == [] then out else JoinOnto(With(out, labels[0]), labels[1..])
  }

  lemma {:induction false} JoinOntoIs(out: seq<byte>, labels: Labels)
    requires NonEmpty(labels)
    ensures JoinOnto(out, labels) == if labels == [] then out else With(out, Join(labels))
    decreases |labels|
  {
    if labels != [] {
      JoinOntoIs(With(out, labels[0]), labels[1..]);
    }
  }

  lemma {:induction false} JoinOntoGrows(out: seq<byte>, labels: Labels)
    ensures |JoinOnto(out, labels)| >= |out|
    decreases |labels|
  {
    if labels != [] {
      JoinOntoGrows(With(out, labels[0]), labels[1..]);
    }
  }

  lemma {:induction false} LabelsNonEmpty(p: seq<byte>, j: nat, hops: nat)
    ensures var ls := LabelsAt(p, j, hops); ls.Some? ==> NonEmpty(ls.value)
    decreases hops, |p| - j
  {
    if j < |p| && p[j] != 0 {
      if p[j] >= 64 {
        if hops > 0 && j + 1 < |p| {
          LabelsNonEmpty(p, Target(p[j], p[j + 1]), hops - 1);
        }
      } else {
        LabelsNonEmpty(p, j + 1 + p[j], hops);
      }
    }
  }

  /** Where the name ends is inside the message, if there is a name. */
  lemma {:induction false} EndInside(p: seq<byte>, j: nat, hops: nat)
    requires LabelsAt(p, j, hops).Some?
    ensures j < NameEnd(p, j) <= |p|
    decreases |p| - j
  {
    if j < |p| && 0 < p[j] < 64 {
      EndInside(p, j + 1 + p[j], hops);
    }
  }

  /** What is read when `out` is read already and the reader is at `j`. */
  ghost function Reading(p: seq<byte>, j: nat, hops: nat, out: seq<byte>): Option<seq<byte>> {
    var ls := LabelsAt(p, j, hops);
    if ls.None? then None else Some(JoinOnto(out, ls.value))
  }

  lemma {:induction false} ReadStep(p: seq<byte>, j: nat, hops: nat, out: seq<byte>)
    requires j < |p|
    ensures p[j] == 0 ==> Reading(p, j, hops, out) == Some(out)
    ensures p[j] >= 64 ==> (Reading(p, j, hops, out) ==
      if j + 1 >= |p| || Target(p[j], p[j + 1]) >= |p| || hops == 0 then None
      else Reading(p, Target(p[j], p[j + 1]), hops - 1, out))
    ensures 0 < p[j] < 64 ==> (Reading(p, j, hops, out) ==
      if j + 1 + p[j] > |p| then None
      else Reading(p, j + 1 + p[j], hops, With(out, p[j + 1..j + 1 + p[j]])))
  {
    if 0 < p[j] < 64 && j + 1 + p[j] <= |p| {
      var l, rest := p[j + 1..j + 1 + p[j]], LabelsAt(p, j + 1 + p[j], hops);
      if rest.Some? {
        assert ([l] + rest.value)[1..] == rest.value;
      }
    }
  }

  lemma {:induction false} ReadGrows(p: seq<byte>, j: nat, hops: nat, out: seq<byte>)
    ensures var r := Reading(p, j, hops, out); r.Some? ==> |r.value| >= |out|
  {
    var ls := LabelsAt(p, j, hops);
    if ls.Some? {
      JoinOntoGrows(out, ls.value);
    }
  }

  lemma {:induction false} ReadAll(p: seq<byte>, j: nat, hops: nat)
    ensures var ls := LabelsAt(p, j, hops);
      Reading(p, j, hops, []) == if ls.None? then None else Some(Join(ls.value))
  {
    LabelsNonEmpty(p, j, hops);
    var ls := LabelsAt(p, j, hops);
    if ls.Some? {
      JoinOntoIs([], ls.value);
      assert [] + Join(ls.value) == Join(ls.value);
    }
  }

  /** memcpy to `name_out` */
  method PutName(nameOut: array<byte>, at: nat, bytes: seq<byte>)
    requires at + |bytes| <= nameOut.Length
    modifies nameOut
    ensures nameOut[..at + |bytes|] == old(nameOut[..at]) + bytes
  {
    forall i | 0 <= i < |bytes| {
      nameOut[at + i] := bytes[i];
    }
  }

  /** Put a label, after a dot unless it is the first, where there is room for it and a zero byte. */
  method AddLabel(packet: array<byte>, length: nat, j: nat, labelLen: byte, nameOut: array<byte>, cp0: nat)
      returns (ok: bool, cp: nat)
    requires length <= packet.Length && packet != nameOut && cp0 <= nameOut.Length
    modifies nameOut
    ensures cp <= nameOut.Length
    ensures ok <==> cp0 + labelLen + (if cp0 == 0 then 0 else 1) < nameOut.Length && j + labelLen <= length
    ensures ok ==> cp < nameOut.Length && nameOut[..cp] == With(old(nameOut[..cp0]), packet[j..j + labelLen])
  {
    cp := cp0;
    if cp != 0 {
      if cp + 1 >= nameOut.Length {
        return false, cp;
      }
      PutName(nameOut, cp, [DOT]);
      cp := cp + 1;
    }
    if cp + labelLen >= nameOut.Length {
      return false, cp;
    }
    if j + labelLen > length {
      return false, cp;
    }
    PutName(nameOut, cp, packet[j..j + labelLen]);
    return true, cp + labelLen;
  }

  /**
   name_parse. It ends on every message, also one with circular pointers: each round either uses
   up a jump or moves on. It succeeds exactly when there is a name that can be read with at most
   as many jumps as the message has bytes and that fits with its zero byte, and answers where the
   bytes of that name end.
   */
  method NameParse(packet: array<byte>, length: nat, idx: nat, nameOut: array<byte>) returns (result: int, next: nat)
    requires length <= packet.Length && packet != nameOut
    modifies nameOut
    ensures var ls := LabelsAt(packet[..length], idx, length);
      result == if ls.Some? && |Join(ls.value)| < nameOut.Length then 0 else -1
    ensures result == 0 ==>
      var name := Join(LabelsAt(packet[..length], idx, length).value);
      && next == NameEnd(packet[..length], idx) && idx < next <= length
      && nameOut[..|name|] == name && nameOut[|name|] == 0
    ensures result != 0 ==> next == idx
  {
    hide LabelsAt, Join, Reading, NameEnd, With;
    ghost var p := packet[..length];
    var nameEnd: int := -1;
    var j: nat, ptrCount: nat, cp: nat := idx, 0, 0;
    ReadAll(p, idx, length);
    while true
      invariant ptrCount <= length && cp <= nameOut.Length && (cp > 0 ==> cp < nameOut.Length)
      invariant Reading(p, j, length - ptrCount, nameOut[..cp]) == Reading(p, idx, length, [])
      invariant NameEnd(p, idx) == if nameEnd < 0 then NameEnd(p, j) else nameEnd
      decreases length - ptrCount, length - j
    {
      if j >= length {
        NoName(p, j, length - ptrCount, nameOut[..cp]);
        return -1, idx;
      }
      ReadStep(p, j, length - ptrCount, nameOut[..cp]);
      EndStep(p, j);
      var labelLen := packet[j];
      j := j + 1;
      if labelLen == 0 {
        break;
      }
      if labelLen >= 64 {
        if j >= length {
          return -1, idx;
        }
        var ptrLow := packet[j];
        j := j + 1;
        if nameEnd < 0 {
          nameEnd := j;
        }
        j := Target(labelLen, ptrLow);
        if j >= length {
          return -1, idx;
        }
        ptrCount := ptrCount + 1;
        if ptrCount > length {
          return -1, idx;
        }
        continue;
      }
      if j + labelLen <= length {
        ReadGrows(p, j + labelLen, length - ptrCount, With(nameOut[..cp], p[j..j + labelLen]));
        WithLength(nameOut[..cp], p[j..j + labelLen]);
        assert packet[j..j + labelLen] == p[j..j + labelLen];
      }
      var ok;
      ok, cp := AddLabel(packet, length, j, labelLen, nameOut, cp);
      if !ok {
        return -1, idx;
      }
      j := j + labelLen;
    }
    HasEnd(p, idx, length);
    if cp >= nameOut.Length {
      return -1, idx;
    }
    nameOut[cp] := 0;
    if nameEnd < 0 {
      return 0, j;
    }
    return 0, nameEnd;
  }

  lemma WithLength(out: seq<byte>, l: seq<byte>)
    ensures |With(out, l)| == |out| + |l| + if out == [] then 0 else 1
  {
  }

  lemma EndStep(p: seq<byte>, j: nat)
    requires j < |p|
    ensures NameEnd(p, j) == if p[j] == 0 then j + 1 else if p[j] >= 64 then j + 2 else NameEnd(p, j + 1 + p[j])
  {
  }

  lemma {:induction false} HasEnd(p: seq<byte>, j: nat, hops: nat)
    ensures Reading(p, j, hops, []).Some? ==> j < NameEnd(p, j) <= |p|
  {
    if LabelsAt(p, j, hops).Some? {
      EndInside(p, j, hops);
    }
  }

  lemma NoName(p: seq<byte>, j: nat, hops: nat, out: seq<byte>)
    requires j >= |p|
    ensures Reading(p, j, hops, out) == None
  {
  }
}
