/**
 Consistent hashing: a map from points of the ring to shards, beside the sorted list of its points.
 The hash is any function from strings to 32-bit words, so points of different shards may collide.
 */
module HashRing {

  type Word = x: nat | x < 0x1_0000_0000

  type Ring = map<Word, string>

  // ---------- What a ring means ----------

  /** The point that owns a hash: the least one at or above it, else the least of all. */
  ghost predicate OwnerPoint(ring: Ring, h: Word, p: Word) {
    p in ring &&
    ((h <= p && forall q :: q in ring && h <= q ==> p <= q) ||
     ((forall q :: q in ring ==> q < h) && forall q :: q in ring ==> p <= q))
  }

  lemma OwnerPointUnique(ring: Ring, h: Word, p: Word, q: Word)
    requires OwnerPoint(ring, h, p) && OwnerPoint(ring, h, q)
    ensures p == q
  {
  }

  lemma {:induction false} LeastExists(s: set<Word>) returns (p: Word)
    requires s != {}
    ensures p in s && forall q :: q in s ==> p <= q
    decreases |s|
  {
    p :| p in s;
    var rest := s - {p};
    if rest != {} {
      var r := LeastExists(rest);
      assert forall q :: q in s ==> q == p || q in rest;
      if r < p { p := r; }
    }
  }

  lemma OwnerPointExists(ring: Ring, h: Word) returns (p: Word)
    requires ring != map[]
    ensures OwnerPoint(ring, h, p)
  {
    var above := set q | q in ring.Keys && h <= q;
    assert forall q :: q in ring && h <= q ==> q in above;
    p := LeastExists(if above != {} then above else ring.Keys);
  }

  ghost function Owner(ring: Ring, h: Word): string
    requires ring != map[]
  {
    OwnerPointExistsToo(ring, h);
    var p :| OwnerPoint(ring, h, p);
    ring[p]
  }

  lemma OwnerPointExistsToo(ring: Ring, h: Word)
    requires ring != map[]
    ensures exists p :: OwnerPoint(ring, h, p)
  {
    var p := OwnerPointExists(ring, h);
  }

  lemma OwnerIs(ring: Ring, h: Word, p: Word)
    requires OwnerPoint(ring, h, p)
    ensures ring != map[] && Owner(ring, h) == ring[p]
  {
    var q :| OwnerPoint(ring, h, q) && Owner(ring, h) == ring[q];
    OwnerPointUnique(ring, h, p, q);
  }

  // ---------- Adding and removing shards ----------

  /** The ring after a shard claims some points, taking over those that others held. */
  function Claim(ring: Ring, points: set<Word>, shard: string): Ring {
    map p | p in ring.Keys + points :: if p in points then shard else ring[p]
  }

  function Drop(ring: Ring, shard: string): Ring {
    map p | p in ring && ring[p] != shard :: ring[p]
  }

  /** An added shard takes keys over; no key moves between the shards that were there. */
  lemma AddMovesOnlyToNew(ring: Ring, points: set<Word>, shard: string, h: Word)
    requires ring != map[]
    ensures var ring' := Claim(ring, points, shard);
      ring' != map[] &&
      (Owner(ring', h) == Owner(ring, h) || Owner(ring', h) == shard)
  {
    var ring' := Claim(ring, points, shard);
    var q :| q in ring;
    assert q in ring';
    var p := OwnerPointExists(ring', h);
    OwnerIs(ring', h, p);
    if p !in points {
      assert forall q :: q in ring ==> q in ring';
      assert OwnerPoint(ring, h, p);
      OwnerIs(ring, h, p);
    }
  }

  /** A key ends up with the added shard exactly when one of its points now owns the hash, or already did. */
  lemma AddTakes(ring: Ring, points: set<Word>, shard: string, h: Word, p: Word)
    requires OwnerPoint(Claim(ring, points, shard), h, p) && shard !in ring.Values
    ensures Owner(Claim(ring, points, shard), h) == shard <==> p in points
  {
    OwnerIs(Claim(ring, points, shard), h, p);
    if p !in points { assert ring[p] in ring.Values; }
  }

  /** Removing a shard moves only the keys it owned. */
  lemma RemoveMovesOnlyItsOwn(ring: Ring, shard: string, h: Word)
    requires ring != map[] && Owner(ring, h) != shard
    ensures Drop(ring, shard) != map[] && Owner(Drop(ring, shard), h) == Owner(ring, h)
  {
    var p := OwnerPointExists(ring, h);
    OwnerIs(ring, h, p);
    assert OwnerPoint(Drop(ring, shard), h, p);
    OwnerIs(Drop(ring, shard), h, p);
  }

  /**
   Adding a shard that is not on the ring and removing it again gives the old ring back exactly when its
   points collide with none; a collision costs the points collided with.
   */
  lemma AddRemoveRestores(ring: Ring, points: set<Word>, shard: string)
    requires shard !in ring.Values
    ensures Drop(Claim(ring, points, shard), shard) == ring - points
    ensures Drop(Claim(ring, points, shard), shard) == ring <==> points !! ring.Keys
  {
    var back := Drop(Claim(ring, points, shard), shard);
    forall p | p in ring ensures ring[p] != shard {
      assert ring[p] in ring.Values;
    }
    assert back == ring - points;
    if p :| p in points && p in ring {
      assert p !in back;
    }
  }

  /** After add and remove, every key whose owner point was not collided with has its owner back. */
  lemma AddRemoveKeepsOwner(ring: Ring, points: set<Word>, shard: string, h: Word, p: Word)
    requires shard !in ring.Values && OwnerPoint(ring, h, p) && p !in points
    ensures var back := Drop(Claim(ring, points, shard), shard);
      back != map[] && Owner(back, h) == Owner(ring, h)
  {
    AddRemoveRestores(ring, points, shard);
    OwnerIs(ring, h, p);
    assert OwnerPoint(ring - points, h, p);
    OwnerIs(ring - points, h, p);
  }

  /** The order in which two different shards are added matters exactly when their points collide. */
  lemma AddsCommute(ring: Ring, ps: set<Word>, a: string, qs: set<Word>, b: string)
    requires a != b
    ensures Claim(Claim(ring, ps, a), qs, b) == Claim(Claim(ring, qs, b), ps, a) <==> ps !! qs
  {
    var ab, ba := Claim(Claim(ring, ps, a), qs, b), Claim(Claim(ring, qs, b), ps, a);
    if p :| p in ps && p in qs {
      assert ab[p] == b && ba[p] == a;
    }
  }

  // ---------- The ring as it is kept ----------

  function DigitValue(c: char): nat { if '0' <= c <= '9' then c as nat - '0' as nat else 0 }

  function Digit(n: nat): (c: char)
    requires n < 10
    ensures DigitValue(c) == n
  {
    ('0' as nat + n) as char
  }

  function Digits(n: nat): string {
    if n < 10 then [Digit(n)] else Digits(n / 10) + [Digit(n % 10)]
  }

  /** The number a numeral stands for. */
  function Value(s: string): nat {
    if s == [] then 0 else 10 * Value(s[..|s| - 1]) + DigitValue(s[|s| - 1])
  }

  lemma {:induction false} DigitsReadBack(n: nat)
    ensures Value(Digits(n)) == n
  {
    if n < 10 {
      assert Digits(n)[..0] == [] && Value([]) == 0;
    } else {
      DigitsReadBack(n / 10);
      assert Digits(n)[..|Digits(n)| - 1] == Digits(n / 10);
    }
  }

  /** The name that is hashed for a virtual node. */
  function NodeName(shard: string, i: nat): string { shard + ":" + Digits(i) }

  lemma {:induction false} DigitsOnly(n: nat, k: nat)
    requires k < |Digits(n)|
    ensures Digits(n)[k] != ':'
  {
    if n >= 10 && k < |Digits(n)| - 1 { DigitsOnly(n / 10, k); }
  }

  /** The last colon of a name ends the shard's, so shards of different length make different names. */
  lemma LongerDiffers(a: string, i: nat, b: string, j: nat)
    requires |a| < |b|
    ensures NodeName(a, i) != NodeName(b, j)
  {
    var x, y := NodeName(a, i), NodeName(b, j);
    assert y[|b|] == ':';
    if |b| < |x| {
      assert x[|b|] == Digits(i)[|b| - |a| - 1];
      DigitsOnly(i, |b| - |a| - 1);
    }
  }

  /**
   All virtual nodes, of one shard or of several, have names of their own, whatever the shards are called; so only
   the hash can make points collide.
   */
  lemma NodeNamesDiffer(a: string, i: nat, b: string, j: nat)
    requires NodeName(a, i) == NodeName(b, j)
    ensures a == b && i == j
  {
    assert |a| == |b| by {
      if |a| < |b| { LongerDiffers(a, i, b, j); }
      if |b| < |a| { LongerDiffers(b, j, a, i); }
    }
    assert a == NodeName(a, i)[..|a|] && b == NodeName(b, j)[..|b|];
    assert Digits(i) == NodeName(a, i)[|a| + 1..] && Digits(j) == NodeName(b, j)[|b| + 1..];
    DigitsReadBack(i);
    DigitsReadBack(j);
  }

  ghost predicate StrictlyIncreasing(s: seq<Word>) {
    forall i, j :: 0 <= i < j < |s| ==> s[i] < s[j]
  }

  lemma InsertKeepsSorted(s: seq<Word>, i: nat, p: Word)
    requires StrictlyIncreasing(s) && p !in s && i <= |s|
    requires forall k :: 0 <= k < i ==> s[k] < p
    requires forall k :: i <= k < |s| ==> p <= s[k]
    ensures var r := s[..i] + [p] + s[i..]; StrictlyIncreasing(r) && forall q :: q in r <==> q in s || q == p
  {
    var r := s[..i] + [p] + s[i..];
    forall k | i <= k < |s| ensures p < s[k] { assert s[k] in s; }
    forall k | 0 <= k < |r| ensures r[k] == if k < i then s[k] else if k == i then p else s[k - 1] {}
    forall j, k | 0 <= j < k < |r| ensures r[j] < r[k] {
      if j < i && k > i { assert s[j] < p < s[k - 1]; }
    }
    assert s == s[..i] + s[i..];
  }

  lemma ClaimNone(ring: Ring, shard: string)
    ensures Claim(ring, {}, shard) == ring
  {
  }

  /** Claiming one more point. */
  lemma ClaimOneMore(ring: Ring, points: set<Word>, p: Word, shard: string)
    ensures Claim(ring, points + {p}, shard) == Claim(ring, points, shard)[p := shard]
  {
  }

  class ConsistentHashRing {
    var ring: Ring
    var sortedHashes: seq<Word>
    const virtualNodes: int
    const hash: string -> Word

    ghost predicate Valid()
      reads this
    {
      StrictlyIncreasing(sortedHashes) && forall p :: p in sortedHashes <==> p in ring
    }

    constructor (virtualNodes: int, hash: string -> Word)
      ensures Valid() && ring == map[] && this.virtualNodes == virtualNodes && this.hash == hash
    {
      this.virtualNodes, this.hash := virtualNodes, hash;
      ring, sortedHashes := map[], [];
    }

    /** The points of the first n virtual nodes of a shard. */
    function Points(shard: string, n: nat): set<Word> {
      set i | 0 <= i < n :: hash(NodeName(shard, i))
    }

    lemma PointsGrow(shard: string, n: nat)
      ensures Points(shard, n + 1) == Points(shard, n) + {hash(NodeName(shard, n))}
    {
    }

    function NodeCount(weight: int): nat {
      if virtualNodes * weight < 0 then 0 else virtualNodes * weight
    }

    /** The point of one of a shard's virtual nodes: as many as the weight asks for. */
    ghost predicate HasPoint(shard: string, weight: int, p: Word) {
      exists i: nat :: i < virtualNodes * weight && hash(NodeName(shard, i)) == p
    }

    lemma PointsMean(shard: string, weight: int, p: Word)
      ensures p in Points(shard, NodeCount(weight)) <==> HasPoint(shard, weight, p)
    {
    }

    method AddShard(shard: string, weight: int)
      modifies this
      ensures Valid() && ring == Claim(old(ring), Points(shard, NodeCount(weight)), shard)
      ensures forall p :: p in ring <==> p in old(ring) || HasPoint(shard, weight, p)
      ensures forall p :: p in ring ==> ring[p] == if HasPoint(shard, weight, p) then shard else old(ring)[p]
    {
      var i := 0;
      var nodes := virtualNodes * weight;
      ClaimNone(ring, shard);
      while i < nodes
        invariant 0 <= i <= NodeCount(weight)
        invariant ring == Claim(old(ring), Points(shard, i), shard)
      {
        var point := hash(NodeName(shard, i));
        PointsGrow(shard, i);
        ClaimOneMore(old(ring), Points(shard, i), point, shard);
        ring := ring[point := shard];
        i := i + 1;
      }
      assert i == NodeCount(weight);
      forall p ensures p in Points(shard, i) <==> HasPoint(shard, weight, p) { PointsMean(shard, weight, p); }
      UpdateSortedHashes();
    }

    /** The map's points are visited in any order. */
    method RemoveShard(shard: string)
      modifies this
      ensures Valid() && ring == Drop(old(ring), shard)
    {
      var rest := ring.Keys;
      while rest != {}
        invariant rest <= ring.Keys
        invariant ring == map p | p in old(ring) && (p in rest || old(ring)[p] != shard) :: old(ring)[p]
        decreases |rest|
      {
        var p :| p in rest;
        rest := rest - {p};
        if ring[p] == shard { ring := ring - {p}; }
      }
      UpdateSortedHashes();
    }

    /** Rebuilds the sorted points; where the library sorts, each point is put in its place. */
    method UpdateSortedHashes()
      modifies this`sortedHashes
      ensures Valid()
    {
      sortedHashes := [];
      var rest := ring.Keys;
      while rest != {}
        invariant rest <= ring.Keys && StrictlyIncreasing(sortedHashes)
        invariant forall p :: p in sortedHashes <==> p in ring.Keys - rest
        decreases |rest|
      {
        var p :| p in rest;
        rest := rest - {p};
        var i := Search(p);
        InsertKeepsSorted(sortedHashes, i, p);
        sortedHashes := sortedHashes[..i] + [p] + sortedHashes[i..];
      }
    }

    /** Binary search for the first point at or above h. */
    method Search(h: Word) returns (i: nat)
      requires StrictlyIncreasing(sortedHashes)
      ensures i <= |sortedHashes|
      ensures forall k :: 0 <= k < i ==> sortedHashes[k] < h
      ensures forall k :: i <= k < |sortedHashes| ==> h <= sortedHashes[k]
    {
      i := 0;
      var j := |sortedHashes|;
      while i < j
        invariant 0 <= i <= j <= |sortedHashes|
        invariant forall k :: 0 <= k < i ==> sortedHashes[k] < h
        invariant forall k :: j <= k < |sortedHashes| ==> h <= sortedHashes[k]
      {
        var mid := (i + j) / 2;
        if sortedHashes[mid] < h { i := mid + 1; } else { j := mid; }
      }
    }

    /** The shard of a key: the owner of its hash, or nothing on an empty ring. */
    method GetShard(key: string) returns (shard: string)
      requires Valid()
      ensures ring == map[] ==> shard == ""
      ensures ring != map[] ==> shard == Owner(ring, hash(key))
    {
      if |ring| == 0 { return ""; }
      var h := hash(key);
      var idx := Search(h);
      assert sortedHashes != [] by {
        var p :| p in ring;
        assert p in sortedHashes;
      }
      if idx == |sortedHashes| { idx := 0; }
      ghost var p := sortedHashes[idx];
      assert p in sortedHashes;
      assert OwnerPoint(ring, h, p);
      OwnerIs(ring, h, p);
      return ring[sortedHashes[idx]];
    }
  }
}
