/** A Bloom filter over strings: a bit vector of `size` bits and two hash
    functions supplied by the caller. An item is entered by setting its k probe
    bits and looked up by testing them; the k probe positions come from the two
    hash values alone, by double hashing. */
module Bloom {
  import opened Packing

  /** The fixed parameters of a filter: its bit count, its probe count and its
      two hash functions. */
  datatype Probing = Probing(size: nat, k: nat, hashF: string -> nat, hashF2: string -> nat)
  {
    /** The probe positions of s, in probing order: the i-th is
        (h1 + i * h2) mod size, where h1 and h2 are the two hashes of s. */
    function Probes(s: string): (ps: seq<nat>)
      requires size > 0
      ensures |ps| == k
      ensures forall i :: 0 <= i < k ==> ps[i] < size
    {
      var h1, h2 := hashF(s), hashF2(s);
      seq(k, i requires 0 <= i < k => (h1 + i * h2) % size)
    }
  }

  lemma MulAtLeast(d: nat, n: nat)
    requires d >= 1
    ensures d * n >= n
  {
    assert d * n == (d - 1) * n + n;
  }

  lemma ModUnique(x: nat, q: nat, r: nat, n: nat)
    requires 0 <= r < n && x == q * n + r
    ensures x % n == r
  {
    var q', r' := x / n, x % n;
    assert x == q' * n + r';
    if q' < q {
      var d := q - q';
      assert q * n == q' * n + d * n;
      MulAtLeast(d, n);
      assert false;
    } else if q' > q {
      var d := q' - q;
      assert q' * n == q * n + d * n;
      MulAtLeast(d, n);
      assert false;
    }
  }

  lemma ModAddMultiple(a: nat, m: nat, n: nat)
    requires n > 0
    ensures (a + m * n) % n == a % n
  {
    var q, r := a / n, a % n;
    assert a + m * n == (q + m) * n + r;
    ModUnique(a + m * n, q + m, r, n);
  }

  /** The known weakness of double hashing: when the second hash is a multiple
      of the size, all k probes fall on the one position h1 mod size. */
  lemma DegenerateSecondHash(p: Probing, s: string)
    requires p.size > 0 && p.hashF2(s) % p.size == 0
    ensures forall i :: 0 <= i < p.k ==> p.Probes(s)[i] == p.hashF(s) % p.size
  {
    var h1, h2 := p.hashF(s), p.hashF2(s);
    var q := h2 / p.size;
    assert h2 == q * p.size;
    forall i | 0 <= i < p.k ensures p.Probes(s)[i] == h1 % p.size {
      assert i * h2 == (i * q) * p.size;
      ModAddMultiple(h1, i * q, p.size);
    }
  }

  /** Every one of the positions ps is a set bit of the vector. */
  predicate AllSet(bits: seq<bool>, ps: seq<nat>)
  {
    forall i :: 0 <= i < |ps| ==> ps[i] < |bits| && bits[ps[i]]
  }

  predicate InRange(bits: seq<bool>, ps: seq<nat>)
  {
    forall i :: 0 <= i < |ps| ==> ps[i] < |bits|
  }

  /** How many of the positions ps hold a set bit, a position that occurs
      twice being counted twice. */
  function Hits(bits: seq<bool>, ps: seq<nat>): (c: nat)
    requires InRange(bits, ps)
    ensures c <= |ps|
  {
    if ps == [] then 0
    else Hits(bits, ps[..|ps| - 1]) + (if bits[ps[|ps| - 1]] then 1 else 0)
  }

  /** The vector once the positions ps are set. */
  function WithProbes(bits: seq<bool>, ps: seq<nat>): seq<bool>
  {
    seq(|bits|, j requires 0 <= j < |bits| => bits[j] || j in ps)
  }

  /** The vector once every item is entered, in order. */
  function WithItems(p: Probing, bits: seq<bool>, items: seq<string>): (r: seq<bool>)
    requires p.size > 0
    ensures |r| == |bits|
  {
    if items == [] then bits
    else WithProbes(WithItems(p, bits, items[..|items| - 1]), p.Probes(items[|items| - 1]))
  }

  /** The number of set bits. */
  function Ones(bits: seq<bool>): nat
  {
    if bits == [] then 0 else Ones(bits[..|bits| - 1]) + (if bits[|bits| - 1] then 1 else 0)
  }

  /** Every bit set in a is set in b. */
  predicate Below(a: seq<bool>, b: seq<bool>)
  {
    |a| == |b| && forall j :: 0 <= j < |a| ==> a[j] ==> b[j]
  }

  // ---------------------------------------------------------------------------
  // Properties of entering items

  /** Entering a probe set never clears a bit, so the number of set bits
      never decreases. */
  lemma GrowsOnly(bits: seq<bool>, ps: seq<nat>)
    ensures Below(bits, WithProbes(bits, ps))
    ensures Ones(bits) <= Ones(WithProbes(bits, ps))
  {
    OnesMonotone(bits, WithProbes(bits, ps));
  }

  lemma {:induction false} OnesMonotone(a: seq<bool>, b: seq<bool>)
    requires Below(a, b)
    ensures Ones(a) <= Ones(b)
  {
    if a != [] {
      OnesMonotone(a[..|a| - 1], b[..|b| - 1]);
    }
  }

  /** Entering more items never clears a bit. */
  lemma {:induction false} WithItemsGrows(p: Probing, bits: seq<bool>, items: seq<string>)
    requires p.size > 0
    ensures Below(bits, WithItems(p, bits, items))
  {
    if items != [] {
      WithItemsGrows(p, bits, items[..|items| - 1]);
    }
  }

  /** Entering the same probe set twice gives the vector that entering it once gives. */
  lemma WithProbesIdempotent(bits: seq<bool>, ps: seq<nat>)
    ensures WithProbes(WithProbes(bits, ps), ps) == WithProbes(bits, ps)
  {
  }

  /** A bit of the vector after entering items is set exactly when it was set
      before or is a probe position of one of the items. */
  lemma {:induction false} WithItemsAt(p: Probing, bits: seq<bool>, items: seq<string>, j: nat)
    requires p.size > 0 && j < |bits|
    ensures |WithItems(p, bits, items)| == |bits|
    ensures WithItems(p, bits, items)[j] <==> bits[j] || exists s :: s in items && j in p.Probes(s)
  {
    if items != [] {
      var init, last := items[..|items| - 1], items[|items| - 1];
      WithItemsAt(p, bits, init, j);
      assert items == init + [last];
      assert forall s :: s in items <==> s in init || s == last;
    }
  }

  /** The final vector depends only on which items were entered: not on
      their order and not on how often each was entered. */
  lemma WithItemsOrderFree(p: Probing, bits: seq<bool>, xs: seq<string>, ys: seq<string>)
    requires p.size > 0
    requires forall s :: s in xs <==> s in ys
    ensures WithItems(p, bits, xs) == WithItems(p, bits, ys)
  {
    forall j | 0 <= j < |bits|
      ensures WithItems(p, bits, xs)[j] == WithItems(p, bits, ys)[j]
    {
      WithItemsAt(p, bits, xs, j);
      WithItemsAt(p, bits, ys, j);
    }
  }

  /** No false negatives: every entered item finds all its probe bits set,
      whatever was in the vector before and whatever else was entered before
      or after it. */
  lemma {:induction false} EnteredItemsAreFound(p: Probing, bits: seq<bool>, items: seq<string>, s: string)
    requires p.size > 0 && p.size <= |bits|
    requires s in items
    ensures AllSet(WithItems(p, bits, items), p.Probes(s))
  {
    var init, last := items[..|items| - 1], items[|items| - 1];
    assert items == init + [last];
    var before := WithItems(p, bits, init);
    WithItemsGrows(p, bits, init);
    if s == last {
    } else {
      assert s in init;
      EnteredItemsAreFound(p, bits, init, s);
      GrowsOnly(before, p.Probes(last));
    }
  }

  // ---------------------------------------------------------------------------
  // Properties of the membership test and the confidence score

  /** An item whose probe bits are all set stays so as further bits are set. */
  lemma AllSetGrows(a: seq<bool>, b: seq<bool>, ps: seq<nat>)
    requires Below(a, b) && AllSet(a, ps)
    ensures AllSet(b, ps)
  {
  }

  /** All probes hit exactly when every probe bit is set. */
  lemma {:induction false} HitsAllIffAllSet(bits: seq<bool>, ps: seq<nat>)
    requires InRange(bits, ps)
    ensures Hits(bits, ps) == |ps| <==> AllSet(bits, ps)
  {
    if ps != [] {
      var init := ps[..|ps| - 1];
      HitsAllIffAllSet(bits, init);
      if AllSet(bits, ps) {
        assert AllSet(bits, init) by {
          forall i | 0 <= i < |init| ensures bits[init[i]] { assert init[i] == ps[i]; }
        }
      }
    }
  }

  /** Setting bits never lowers the number of hits, so an item's confidence
      never decreases as items are entered. */
  lemma {:induction false} HitsMonotone(a: seq<bool>, b: seq<bool>, ps: seq<nat>)
    requires Below(a, b) && InRange(a, ps)
    ensures Hits(a, ps) <= Hits(b, ps)
  {
    if ps != [] {
      HitsMonotone(a, b, ps[..|ps| - 1]);
    }
  }

  /** Membership and confidence read only the first n bits, when every
      probe position is below n. */
  lemma {:induction false} QueriesSeeOnlyPrefix(a: seq<bool>, b: seq<bool>, n: nat, ps: seq<nat>)
    requires n <= |a| && n <= |b| && a[..n] == b[..n]
    requires forall i :: 0 <= i < |ps| ==> ps[i] < n
    ensures AllSet(a, ps) == AllSet(b, ps)
    ensures Hits(a, ps) == Hits(b, ps)
  {
    forall i | 0 <= i < |ps| ensures a[ps[i]] == b[ps[i]] {
      assert a[ps[i]] == a[..n][ps[i]];
    }
    if ps != [] {
      QueriesSeeOnlyPrefix(a, b, n, ps[..|ps| - 1]);
    }
  }

  /** Writing the vector out and reading it back leaves every membership test
      and every confidence score as it was. */
  lemma ReloadPreservesQueries(p: Probing, bits: seq<bool>, s: string)
    requires p.size > 0 && p.size <= |bits|
    ensures p.size <= |Unpack(Pack(bits))|
    ensures AllSet(Unpack(Pack(bits)), p.Probes(s)) == AllSet(bits, p.Probes(s))
    ensures Hits(Unpack(Pack(bits)), p.Probes(s)) == Hits(bits, p.Probes(s))
  {
    var back := Unpack(Pack(bits));
    UnpackPack(bits);
    assert back[..|bits|] == bits;
    assert back[..p.size] == bits[..p.size];
    QueriesSeeOnlyPrefix(back, bits, p.size, p.Probes(s));
  }

  /** c out of k, as a fraction, lies in [0, 1] and is 1 only when c is k. */
  lemma Fraction(c: nat, k: nat)
    requires 0 < k && c <= k
    ensures 0.0 <= c as real / k as real <= 1.0
    ensures c as real / k as real == 1.0 <==> c == k
  {
  }

  // ---------------------------------------------------------------------------
  // The filter object

  class BloomFilter {
    var filter: seq<bool>
    const size: nat
    const k: nat
    const hashF: string -> nat
    const hashF2: string -> nat

    function Params(): Probing
    {
      Probing(size, k, hashF, hashF2)
    }

    /** Every probe position indexes the vector. A fresh filter has exactly
        `size` bits; one loaded from an image has eight bits per byte of the
        image, which may be any number of bits from `size` up. */
    ghost predicate Valid()
      reads this
    {
      size <= |filter|
    }

    /** An empty filter: `size` cleared bits and the given parameters. */
    constructor (size: nat, hashF: string -> nat, hashF2: string -> nat, k: nat)
      ensures Valid()
      ensures filter == Zeros(size)
      ensures this.size == size && this.k == k
      ensures this.hashF == hashF && this.hashF2 == hashF2
    {
      this.filter := Zeros(size);
      this.hashF := hashF;
      this.hashF2 := hashF2;
      this.size := size;
      this.k := k;
    }

    /** Replaces the vector by the bits of an image. An image too short to
        supply `size` bits is refused and the filter left as it was. */
    method Ingest(image: seq<byte>) returns (ok: bool)
      requires Valid()
      modifies this`filter
      ensures Valid()
      ensures ok == (size <= 8 * |image|)
      ensures filter == if ok then Unpack(image) else old(filter)
    {
      ok := size <= 8 * |image|;
      if ok {
        filter := [];
        filter := filter + Unpack(image);
      }
    }

    /** The packed image of the vector; reading it back gives the vector
        followed by zero padding. */
    method Dump() returns (image: seq<byte>)
      ensures image == Pack(filter)
      ensures |image| == ImageLength(|filter|)
      ensures |filter| <= |Unpack(image)| && Unpack(image)[..|filter|] == filter
      ensures forall j :: |filter| <= j < |Unpack(image)| ==> !Unpack(image)[j]
    {
      image := Pack(filter);
      UnpackPack(filter);
    }

    /** Sets the probe bits of s and no other bit. */
    method Add(s: string)
      requires Valid() && size > 0
      modifies this`filter
      ensures Valid() && |filter| == |old(filter)|
      ensures AllSet(filter, Params().Probes(s))
      ensures forall j :: 0 <= j < |filter| && j !in Params().Probes(s) ==> filter[j] == old(filter)[j]
      ensures filter == WithProbes(old(filter), Params().Probes(s))
    {
      var h1 := hashF(s);
      var h2 := hashF2(s);
      ghost var ps := Params().Probes(s);
      for i := 0 to k
        invariant filter == WithProbes(old(filter), ps[..i])
      {
        assert ps[..i + 1] == ps[..i] + [ps[i]];
        filter := filter[(h1 + i * h2) % size := true];
      }
      assert ps[..k] == ps;
    }

    /** Enters every item, in order. */
    method Adds(items: seq<string>)
      requires Valid() && size > 0
      modifies this`filter
      ensures Valid()
      ensures filter == WithItems(Params(), old(filter), items)
    {
      for n := 0 to |items|
        invariant Valid()
        invariant filter == WithItems(Params(), old(filter), items[..n])
      {
        assert items[..n + 1][..n] == items[..n];
        Add(items[n]);
      }
      assert items[..|items|] == items;
    }

    /** Membership test: true exactly when every probe bit of s is set,
        stopping at the first cleared one. */
    method Check(s: string) returns (found: bool)
      requires Valid() && size > 0
      ensures found == AllSet(filter, Params().Probes(s))
    {
      var h1 := hashF(s);
      var h2 := hashF2(s);
      ghost var ps := Params().Probes(s);
      for i := 0 to k
        invariant forall j :: 0 <= j < i ==> filter[ps[j]]
      {
        if !filter[(h1 + i * h2) % size] {
          assert !filter[ps[i]];
          return false;
        }
      }
      return true;
    }

    /** The share of the k probes of s that hit a set bit: 1 exactly when the
        membership test succeeds. */
    method Confidence(s: string) returns (score: real)
      requires Valid() && size > 0 && k > 0
      ensures score == Hits(filter, Params().Probes(s)) as real / k as real
      ensures 0.0 <= score <= 1.0
      ensures score == 1.0 <==> AllSet(filter, Params().Probes(s))
    {
      var h1 := hashF(s);
      var h2 := hashF2(s);
      ghost var ps := Params().Probes(s);
      var c: nat := 0;
      for i := 0 to k
        invariant c == Hits(filter, ps[..i])
      {
        assert ps[..i + 1][..i] == ps[..i];
        if filter[(h1 + i * h2) % size] {
          c := c + 1;
        }
      }
      assert ps[..k] == ps;
      score := c as real / k as real;
      HitsAllIffAllSet(filter, ps);
      Fraction(c, k);
    }
  }

  /** A word list entered into a filter of 2^22 bits with 12 probes, written
      out, and read into a fresh filter with the same parameters: every word
      of the list is still found. */
  method CorpusRoundTrip(hashF: string -> nat, hashF2: string -> nat, words: seq<string>, query: string)
    returns (found: bool)
    ensures query in words ==> found
  {
    var bloom := new BloomFilter(4194304, hashF, hashF2, 12);
    bloom.Adds(words);
    var image := bloom.Dump();
    var bloom2 := new BloomFilter(4194304, hashF, hashF2, 12);
    var ok := bloom2.Ingest(image);
    found := bloom2.Check(query);
    if query in words {
      EnteredItemsAreFound(bloom.Params(), Zeros(4194304), words, query);
      ReloadPreservesQueries(bloom.Params(), bloom.filter, query);
    }
  }
}
