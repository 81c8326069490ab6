/**
 Byte strings, and the concatenation of a list of byte strings.
 */
module Bytes {

  type byte = b: int | 0 <= b < 256

  const SIZE_MAX: nat := 0xFFFF_FFFF_FFFF_FFFF
  const SSIZE_MAX: nat := 0x7FFF_FFFF_FFFF_FFFF
  const SSIZE_MIN: int := -0x8000_0000_0000_0000
  const INT_MAX: nat := 0x7FFF_FFFF
  const TWO_32: nat := 0x1_0000_0000
  const TWO_64: nat := 0x1_0000_0000_0000_0000

  datatype Option<+T> = None | Some(value: T)

  function Min(a: nat, b: nat): nat {
    if a <= b then a else b
  }

  /** Conversion of a size to a C int. */
  function ToInt(n: nat): (r: int)
    ensures r == n <==> n <= INT_MAX
    ensures -(INT_MAX as int) - 1 <= r <= INT_MAX
    ensures INT_MAX < n < TWO_32 ==> r < 0
  {
    var low := n % TWO_32;
    if low > INT_MAX then low - TWO_32 else low
  }

  /** The concatenation of all parts, in order. */
  ghost function Flatten<T>(parts: seq<seq<T>>): seq<T> {
    if parts == [] then [] else parts[0] + Flatten(parts[1..])
  }

  lemma {:induction false} FlattenAppend<T>(a: seq<seq<T>>, b: seq<seq<T>>)
    ensures Flatten(a + b) == Flatten(a) + Flatten(b)
  {
    if a == [] {
      assert a + b == b;
    } else {
      assert (a + b)[1..] == a[1..] + b;
      FlattenAppend(a[1..], b);
    }
  }

  lemma FlattenCons<T>(s: seq<T>, parts: seq<seq<T>>)
    ensures Flatten([s] + parts) == s + Flatten(parts)
  {
    assert ([s] + parts)[1..] == parts;
  }

  lemma FlattenOne<T>(s: seq<T>)
    ensures Flatten([s]) == s
  {
    assert Flatten([s]) == s + Flatten([]);
  }

  lemma FlattenSplit<T>(parts: seq<seq<T>>, k: nat)
    requires k <= |parts|
    ensures Flatten(parts) == Flatten(parts[..k]) + Flatten(parts[k..])
  {
    assert parts == parts[..k] + parts[k..];
    FlattenAppend(parts[..k], parts[k..]);
  }

  /** Splitting a list of parts around its part number `k`. */
  lemma FlattenAt<T>(parts: seq<seq<T>>, k: nat)
    requires k < |parts|
    ensures Flatten(parts) == Flatten(parts[..k]) + parts[k] + Flatten(parts[k + 1..])
  {
    FlattenSplit(parts, k);
    var rest := parts[k..];
    assert rest[0] == parts[k] && rest[1..] == parts[k + 1..];
    assert Flatten(rest) == parts[k] + Flatten(parts[k + 1..]);
  }

  lemma {:induction false} FlattenEmpties<T>(parts: seq<seq<T>>)
    requires forall i :: 0 <= i < |parts| ==> parts[i] == []
    ensures Flatten(parts) == []
  {
    if parts != [] {
      FlattenEmpties(parts[1..]);
    }
  }

  /** Nothing flattened means every part is empty. */
  lemma {:induction false} FlattenNothing<T>(parts: seq<seq<T>>)
    requires Flatten(parts) == []
    ensures forall i :: 0 <= i < |parts| ==> parts[i] == []
  {
    if parts != [] {
      FlattenNothing(parts[1..]);
    }
  }

  /** Adding bytes at the end of part `k`, when all later parts are empty. */
  lemma FlattenExtend<T>(parts: seq<seq<T>>, k: nat, s: seq<T>)
    requires k < |parts|
    requires forall i :: k < i < |parts| ==> parts[i] == []
    ensures Flatten(parts[k := parts[k] + s]) == Flatten(parts) + s
  {
    var more := parts[k := parts[k] + s];
    FlattenAt(parts, k);
    FlattenAt(more, k);
    assert more[..k] == parts[..k] && more[k + 1..] == parts[k + 1..];
    FlattenEmpties(parts[k + 1..]);
  }

  /** Appending in two steps. */
  lemma AppendInTwo<T>(s: seq<T>, data: seq<T>, k: nat)
    requires k <= |data|
    ensures s + data[..k] + data[k..] == s + data
  {
    assert data == data[..k] + data[k..];
  }

  lemma PrependInTwo<T>(s: seq<T>, data: seq<T>, k: nat)
    requires k <= |data|
    ensures data[..k] + (data[k..] + s) == data + s
  {
    assert data == data[..k] + data[k..];
  }

  /** One part further. */
  lemma FlattenStep<T>(parts: seq<seq<T>>, k: nat)
    requires k < |parts|
    ensures Flatten(parts[..k + 1]) == Flatten(parts[..k]) + parts[k]
    ensures Flatten(parts) == Flatten(parts[..k + 1]) + Flatten(parts[k + 1..])
  {
    hide Flatten;
    assert parts[..k + 1] == parts[..k] + [parts[k]];
    FlattenAppend(parts[..k], [parts[k]]);
    FlattenOne(parts[k]);
    FlattenSplit(parts, k + 1);
  }

  lemma FlattenAll<T>(parts: seq<seq<T>>)
    ensures Flatten(parts[..|parts|]) == Flatten(parts)
    ensures Flatten(parts[..0]) == []
  {
    assert parts[..|parts|] == parts;
  }

  /** Where the bytes of part `k`, from its index `i` on, are in the concatenation. */
  lemma FlattenWindow<T>(parts: seq<seq<T>>, k: nat, i: nat, m: nat)
    requires k < |parts| && i + m <= |parts[k]|
    ensures var p := |Flatten(parts[..k])| + i;
      && p + m <= |Flatten(parts)| && Flatten(parts)[p..p + m] == parts[k][i..i + m]
      && |Flatten(parts[..k + 1])| == |Flatten(parts[..k])| + |parts[k]|
  {
    hide Flatten;
    FlattenStep(parts, k);
    FlattenAt(parts, k);
  }

  lemma SliceJoin<T>(s: seq<T>, a: nat, b: nat, c: nat)
    requires a <= b <= c <= |s|
    ensures s[a..b] + s[b..c] == s[a..c]
  {
  }

  lemma SliceSlice<T>(s: seq<T>, a: nat, b: nat, i: nat, j: nat)
    requires a <= b <= |s| && i <= j <= b - a
    ensures s[a..b][i..j] == s[a + i..a + j]
  {
    var l, r := s[a..b][i..j], s[a + i..a + j];
    assert |l| == |r| && forall k :: 0 <= k < |l| ==> l[k] == r[k];
  }
}
