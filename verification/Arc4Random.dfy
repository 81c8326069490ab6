/**
 arc4random: the shuffled state, and numbers below a bound without modulo bias.
 */
module Arc4Random {
  import opened Arithmetic
  import opened Bytes

  // ---- The stream ----

  /** No two places hold the same byte, so every byte is in one of them. */
  ghost predicate Permutation(s: seq<byte>) {
    |s| == 256 && forall a, b :: 0 <= a < b < 256 ==> s[a] != s[b]
  }

  function Swapped(s: seq<byte>, i: byte, j: byte): (t: seq<byte>)
    requires |s| == 256
    ensures |t| == 256
  {
    s[i := s[j]][j := s[i]]
  }

  lemma SwapKeeps(s: seq<byte>, i: byte, j: byte)
    requires Permutation(s)
    ensures |s| == 256 && Permutation(Swapped(s, i, j)) && Swapped(Swapped(s, i, j), i, j) == s
  {
  }

  datatype Stream = Stream(i: byte, j: byte, s: seq<byte>) {
    ghost predicate Ok() {
      Permutation(s)
    }
  }

  /** One step of the generator, with `extra` mixed in. */
  function Stepped(x: Stream, extra: byte): Stream
    requires |x.s| == 256
  {
    var i := (x.i + 1) % 256;
    var j := (x.j + x.s[i] + extra) % 256;
    Stream(i, j, Swapped(x.s, i, j))
  }

  /** The state before a step. */
  function Unstepped(y: Stream, extra: byte): Stream
    requires |y.s| == 256
  {
    var s := Swapped(y.s, y.i, y.j);
    Stream((y.i + 255) % 256, (y.j + 512 - s[y.i] - extra) % 256, s)
  }

  /** Steps keep the permutation and lose nothing: the state before can be told from the state after. */
  lemma StepIsReversible(x: Stream, extra: byte)
    requires |x.s| == 256 && x.Ok()
    ensures Stepped(x, extra).Ok() && Unstepped(Stepped(x, extra), extra) == x
    ensures Stepped(x, extra).i == (x.i + 1) % 256
  {
    hide Permutation, Swapped;
    var i := (x.i + 1) % 256;
    var j := (x.j + x.s[i] + extra) % 256;
    SwapKeeps(x.s, i, j);
    WrapsBack(x.i, x.j, x.s[i], extra);
  }

  lemma WrapsBack(i: byte, j: byte, a: byte, b: byte)
    ensures ((i + 1) % 256 + 255) % 256 == i
    ensures ((j + a + b) % 256 + 512 - a - b) % 256 == j
  {
  }

  /** The bytes of `dat` over and over. */
  function Cycled(dat: seq<byte>, n: nat): byte
    requires dat != []
  {
    dat[n % |dat|]
  }

  /** `n` steps that mix in the bytes of `dat` over and over. */
  function Mixed(x: Stream, dat: seq<byte>, n: nat): (y: Stream)
    requires |x.s| == 256 && dat != []
    ensures |y.s| == 256
  {
    if n == 0 then x else Stepped(Mixed(x, dat, n - 1), Cycled(dat, n - 1))
  }

  lemma {:induction false} MixingKeeps(x: Stream, dat: seq<byte>, n: nat)
    requires |x.s| == 256 && x.Ok() && dat != []
    ensures Mixed(x, dat, n).Ok() && Mixed(x, dat, n).i == (x.i + n) % 256
    ensures Mixed(x, dat, 0) == x
    ensures n > 0 ==> Mixed(x, dat, n) == Stepped(Mixed(x, dat, n - 1), dat[(n - 1) % |dat|])
  {
    hide Stepped, Stream.Ok;
    if n > 0 {
      MixingKeeps(x, dat, n - 1);
      StepIsReversible(Mixed(x, dat, n - 1), Cycled(dat, n - 1));
      NextByte(x.i + (n - 1));
    }
  }

  lemma NextByte(k: nat)
    ensures (k % 256 + 1) % 256 == (k + 1) % 256
  {
  }

  lemma AllRound(i: byte)
    ensures (i + 256) % 256 == i
  {
  }

  /** struct arc4_stream */
  class Arc4Stream {
    var i: byte
    var j: byte
    const s: array<byte>

    /** arc4_init */
    constructor ()
      ensures Valid() && fresh(s) && i == j == 0
    {
      i, j := 0, 0;
      s := new byte[256](n => if 0 <= n < 256 then n else 0);
    }

    ghost predicate Valid()
      reads this, s
    {
      s.Length == 256 && State().Ok()
    }

    ghost function State(): Stream
      reads this, s
    {
      Stream(i, j, s[..])
    }

    method Step(extra: byte)
      requires s.Length == 256
      modifies this, s
      ensures State() == Stepped(old(State()), extra)
      ensures i == (old(i) + 1) % 256 && j == (old(j) + old(s[(i + 1) % 256]) + extra) % 256
      ensures s[..] == old(s[..])[i := old(s[..])[j]][j := old(s[..])[i]]
    {
      i := (i + 1) % 256;
      var si := s[i];
      j := (j + si + extra) % 256;
      s[i] := s[j];
      s[j] := si;
    }

    /** arc4_addrandom */
    method AddRandom(dat: seq<byte>)
      requires Valid() && dat != []
      modifies this, s
      ensures Valid() && i == j == old((i + 255) % 256)
      ensures s[..] == Mixed(old(State()).(i := old((i + 255) % 256)), dat, 256).s
    {
      ghost var x := State().(i := (i + 255) % 256);
      i := (i + 255) % 256;
      for n := 0 to 256
        invariant State() == Mixed(x, dat, n)
      {
        Step(Cycled(dat, n));
      }
      MixingKeeps(x, dat, 256);
      AllRound(x.i);
      j := i;
    }

    /** arc4_getbyte */
    method GetByte() returns (b: byte)
      requires Valid()
      modifies this, s
      ensures Valid() && State() == Stepped(old(State()), 0)
      ensures i == (old(i) + 1) % 256 && j == (old(j) + old(s[(i + 1) % 256])) % 256
      ensures s[..] == old(s[..])[i := old(s[..])[j]][j := old(s[..])[i]] && b == s[(s[i] as int + s[j]) % 256]
    {
      StepIsReversible(State(), 0);
      Step(0);
      b := s[(s[i] as int + s[j]) % 256];
    }
  }

  // ---- Numbers below a bound ----

  /** The words that arc4random_uniform rejects are those below this, computed with 32 bits. */
  function Threshold(bound: nat): nat
    requires 2 <= bound < TWO_32
  {
    if bound > 0x8000_0000 then (1 + (0xffff_ffff - bound)) % TWO_32
    else Complement(bound) % bound
  }

  /** 2^32 less twice the bound, in 32 bits. */
  function Complement(bound: nat): nat
    requires bound < TWO_32
  {
    ((0xffff_ffff - bound * 2 % TWO_32) + 1) % TWO_32
  }

  /** Numbers with the same remainder differ by a multiple. */
  lemma SameRemainder(v: nat, w: nat, g: nat)
    requires g > 0 && v % g == w % g
    ensures v == w || v >= w + g || w >= v + g
  {
    DivMod(v, g);
    DivMod(w, g);
    NoMultiple(g, v / g - w / g);
    Distribute(g, v / g, w / g);
  }

  lemma TwoMore(x: nat, g: nat)
    requires g > 0
    ensures (x + g * 2) % g == x % g
  {
    DivMod(x, g);
    assert g * (x / g + 2) == g * (x / g) + g * 2;
    Division(x + g * 2, g, x / g + 2, x % g);
  }

  /** Both branches compute 2^32 modulo the bound. */
  lemma ThresholdIs(bound: nat)
    requires 2 <= bound < TWO_32
    ensures Threshold(bound) == TWO_32 % bound
  {
    hide Complement;
    ComplementIs(bound);
    if bound > 0x8000_0000 {
      Division(TWO_32, bound, 1, TWO_32 - bound);
    } else if bound == 0x8000_0000 {
      assert TWO_32 % 0x8000_0000 == 0 && 0 % 0x8000_0000 == 0;
    } else {
      TwoMore(TWO_32 - bound * 2, bound);
      assert TWO_32 - bound * 2 + bound * 2 == TWO_32;
    }
  }

  lemma ComplementIs(bound: nat)
    requires 2 <= bound < TWO_32
    ensures bound <= 0x8000_0000 ==> Complement(bound) == if bound == 0x8000_0000 then 0 else TWO_32 - bound * 2
  {
  }

  /** The words from `lo` on, below `hi`, that are reduced to `k`. */
  ghost function ReducedTo(k: nat, bound: nat, lo: nat, hi: nat): set<nat>
    requires bound > 0
  {
    set w: nat | lo <= w < hi && w % bound == k
  }

  /** In any `q` times `bound` words in a row, each remainder comes `q` times. */
  lemma {:induction false} EachOften(k: nat, bound: nat, lo: nat, q: nat)
    requires k < bound
    ensures |ReducedTo(k, bound, lo, lo + bound * q)| == q
  {
    if q == 0 {
      assert ReducedTo(k, bound, lo, lo + bound * q) == {};
    } else {
      var mid := lo + bound * (q - 1);
      EachOften(k, bound, lo, q - 1);
      Block(bound, q);
      var w := OneOf(k, bound, mid);
      assert ReducedTo(k, bound, lo, lo + bound * q) == ReducedTo(k, bound, lo, mid) + {w};
    }
  }

  lemma Block(bound: nat, q: nat)
    requires q > 0
    ensures bound * q == bound * (q - 1) + bound
  {
  }

  /** In `bound` words in a row there is just one with each remainder. */
  lemma OneOf(k: nat, bound: nat, lo: nat) returns (w: nat)
    requires k < bound
    ensures lo <= w < lo + bound && w % bound == k
    ensures forall v: nat :: lo <= v < lo + bound && v % bound == k ==> v == w
  {
    var q, r := lo / bound, lo % bound;
    DivMod(lo, bound);
    if r <= k {
      w := lo + (k - r);
      Division(w, bound, q, k);
    } else {
      w := lo + (k - r) + bound;
      Block(bound, q + 1);
      Division(w, bound, q + 1, k);
    }
    forall v: nat | lo <= v < lo + bound && v % bound == k
      ensures v == w
    {
      SameRemainder(v, w, bound);
    }
  }

  /** Exactly as many accepted words are reduced to each number below the bound. */
  lemma UniformIsUnbiased(bound: nat, k: nat)
    requires 2 <= bound < TWO_32 && k < bound
    ensures |ReducedTo(k, bound, Threshold(bound), TWO_32)| == TWO_32 / bound
  {
    hide Threshold, ReducedTo;
    ThresholdIs(bound);
    DivMod(TWO_32, bound);
    EachOften(k, bound, Threshold(bound), TWO_32 / bound);
  }

  /** arc4random_uniform on a given stream of words: the first that is not rejected is reduced. */
  method Uniform(bound: nat, words: seq<nat>) returns (r: Option<nat>, used: nat)
    requires bound < TWO_32 && forall i :: 0 <= i < |words| ==> words[i] < TWO_32
    ensures bound < 2 ==> r == Some(0) && used == 0
    ensures bound >= 2 ==> used <= |words| && forall i :: 0 <= i < used - 1 ==> words[i] < TWO_32 % bound
    ensures bound >= 2 && r.None? ==> used == |words| && forall i :: 0 <= i < used ==> words[i] < TWO_32 % bound
    ensures bound >= 2 && r.Some? ==> used > 0 && words[used - 1] >= TWO_32 % bound && r.value == words[used - 1] % bound < bound
  {
    if bound < 2 {
      return Some(0), 0;
    }
    ThresholdIs(bound);
    var min := if bound > 0x8000_0000 then (1 + (0xffff_ffff - bound)) % TWO_32
      else Complement(bound) % bound;
    used := 0;
    while used < |words|
      invariant used <= |words| && forall i :: 0 <= i < used ==> words[i] < min
    {
      var w := words[used];
      used := used + 1;
      if w >= min {
        return Some(w % bound), used;
      }
    }
    return None, used;
  }
}
