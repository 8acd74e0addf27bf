/**
 * The Merkle tree of crates/epochgrid-core/src/transparency.rs and revocation.rs, with the tree
 * shape and the 0/1 prefixes of section 2.1 of RFC 6962. The hash is any function at all, so every
 * conclusion is "the lists are equal, or here are two inputs with one digest".
 */
module Merkle {
  import opened Prelude

  predicate IsPowerOfTwo(n: nat) {
    n == 1 || (n > 1 && n % 2 == 0 && IsPowerOfTwo(n / 2))
  }

  /** The least power of two that is at least n, found by doubling `p`. */
  function NextPowerOfTwo(n: nat, p: nat := 1): nat
    requires p > 0
    decreases n - p
  {
    if n <= p then p else NextPowerOfTwo(n, 2 * p)
  }

  lemma {:induction false} NextIsPower(n: nat, p: nat)
    requires IsPowerOfTwo(p) && p < n
    ensures var r := NextPowerOfTwo(n, p); r % 2 == 0 && IsPowerOfTwo(r / 2) && r / 2 < n <= r
    decreases n - p
  {
    if 2 * p < n {
      NextIsPower(n, 2 * p);
    }
  }

  lemma {:induction false} PowersAreSpread(p: nat, q: nat)
    requires IsPowerOfTwo(p) && IsPowerOfTwo(q) && p < q
    ensures 2 * p <= q
  {
    if p > 1 {
      PowersAreSpread(p / 2, q / 2);
    }
  }

  /** Where a list of n >= 2 entries is cut. */
  function Split(n: nat): (k: nat)
    requires n >= 2
    ensures 0 < k < n <= 2 * k && IsPowerOfTwo(k)
  {
    NextIsPower(n, 1);
    NextPowerOfTwo(n) / 2
  }

  ghost predicate LargestPowerBelow(k: nat, n: nat) {
    && IsPowerOfTwo(k) && k < n
    && forall q: nat | q < n && IsPowerOfTwo(q) :: q <= k
  }

  /** Section 2.1 of RFC 6962: k is the largest power of two smaller than n. */
  lemma SplitIsLargest(n: nat, k: nat)
    requires n >= 2
    ensures k == Split(n) <==> LargestPowerBelow(k, n)
  {
    var s := Split(n);
    forall q: nat | q < n && IsPowerOfTwo(q) ensures q <= s {
      if q > s {
        PowersAreSpread(s, q);
      }
    }
    assert LargestPowerBelow(s, n);
  }

  /** A leaf encoding that fails or decodes back to the entry it came from. */
  ghost predicate Injective<T(!new)>(leaf: T -> Option<Bytes>) {
    forall x: T, y: T | leaf(x).Some? && leaf(x) == leaf(y) :: x == y
  }

  /** What is hashed at the top of the tree; None when some entry cannot be encoded. */
  function Preimage<T>(hash: Bytes -> Digest, leaf: T -> Option<Bytes>, entries: seq<T>): Option<Bytes>
    decreases |entries|, 0
  {
    if |entries| == 0 then Some([])
    else if |entries| == 1 then
      match leaf(entries[0])
      case None => None
      case Some(bytes) => Some([0] + bytes)
    else
      var k := Split(|entries|);
      match (Root(hash, leaf, entries[..k]), Root(hash, leaf, entries[k..]))
      case (Some(left), Some(right)) => Some([1] + left + right)
      case _ => None
  }

  function Root<T>(hash: Bytes -> Digest, leaf: T -> Option<Bytes>, entries: seq<T>): Option<Digest>
    decreases |entries|, 1
  {
    match Preimage(hash, leaf, entries)
    case None => None
    case Some(bytes) => Some(hash(bytes))
  }

  /** Descends both trees to the first pair of different inputs. */
  function Culprits<T(==)>(hash: Bytes -> Digest, leaf: T -> Option<Bytes>, a: seq<T>, b: seq<T>): (Bytes, Bytes)
    decreases |a|
  {
    match (Preimage(hash, leaf, a), Preimage(hash, leaf, b))
    case (Some(x), Some(y)) =>
      if x != y || |a| < 2 || |b| < 2 then (x, y)
      else
        var j, k := Split(|a|), Split(|b|);
        if a[..j] != b[..k] then Culprits(hash, leaf, a[..j], b[..k])
        else Culprits(hash, leaf, a[j..], b[k..])
    case _ => ([], [])
  }

  /**
   * Binding, for lists of any two lengths: equal roots mean equal lists, or `Culprits` names two
   * different inputs with the same digest.
   */
  lemma {:induction false} Binding<T(!new)>(hash: Bytes -> Digest, leaf: T -> Option<Bytes>, a: seq<T>, b: seq<T>)
    requires Injective(leaf)
    requires Root(hash, leaf, a).Some? && Root(hash, leaf, a) == Root(hash, leaf, b)
    ensures a == b || var (x, y) := Culprits(hash, leaf, a, b); Collides(hash, x, y)
    decreases |a|
  {
    var x, y := Preimage(hash, leaf, a).value, Preimage(hash, leaf, b).value;
    if a != b && x == y {
      SameShape(hash, leaf, a, b);
      var j, k := Split(|a|), Split(|b|);
      assert a == a[..j] + a[j..] && b == b[..k] + b[k..];
      if a[..j] != b[..k] {
        Binding(hash, leaf, a[..j], b[..k]);
      } else {
        Binding(hash, leaf, a[j..], b[k..]);
      }
    }
  }

  /** Equal hashed inputs come from equal lists, or from two inner nodes with equal children. */
  lemma SameShape<T(!new)>(hash: Bytes -> Digest, leaf: T -> Option<Bytes>, a: seq<T>, b: seq<T>)
    requires Injective(leaf)
    requires Preimage(hash, leaf, a).Some? && Preimage(hash, leaf, a) == Preimage(hash, leaf, b)
    ensures |a| < 2 || |b| < 2 ==> a == b
    ensures |a| >= 2 && |b| >= 2 ==>
              && Root(hash, leaf, a[..Split(|a|)]).Some?
                 && Root(hash, leaf, a[..Split(|a|)]) == Root(hash, leaf, b[..Split(|b|)])
              && Root(hash, leaf, a[Split(|a|)..]).Some?
                 && Root(hash, leaf, a[Split(|a|)..]) == Root(hash, leaf, b[Split(|b|)..])
  {
    InputTag(hash, leaf, a);
    InputTag(hash, leaf, b);
    var x := Preimage(hash, leaf, a).value;
    if |a| == 1 {
      assert leaf(a[0]).value == x[1..] == leaf(b[0]).value;
      assert a == [a[0]] && b == [b[0]];
    } else if |a| >= 2 {
      var j, k := Split(|a|), Split(|b|);
      NodeParses(Root(hash, leaf, a[..j]).value, Root(hash, leaf, a[j..]).value,
                 Root(hash, leaf, b[..k]).value, Root(hash, leaf, b[k..]).value);
    }
  }

  /** The prefix byte separates the empty list, leaves and inner nodes. */
  lemma InputTag<T>(hash: Bytes -> Digest, leaf: T -> Option<Bytes>, entries: seq<T>)
    requires Preimage(hash, leaf, entries).Some?
    ensures var x := Preimage(hash, leaf, entries).value;
            && (|entries| == 0 <==> x == [])
            && (|entries| == 1 <==> x != [] && x[0] == 0)
            && (|entries| >= 2 <==> x != [] && x[0] == 1)
  {}

  lemma NodeParses(left: Digest, right: Digest, left': Digest, right': Digest)
    requires [1] + left + right == [1] + left' + right'
    ensures left == left' && right == right'
  {
    var x := [1] + left + right;
    assert left == x[1..33] && left' == x[1..33];
    assert right == x[33..] && right' == x[33..];
  }

  /** The two inputs `Culprits` finds between a list and the start of a log that does not repeat it collide. */
  ghost predicate PrefixClash<T>(hash: Bytes -> Digest, leaf: T -> Option<Bytes>, earlier: seq<T>, log: seq<T>) {
    |earlier| <= |log| && var (x, y) := Culprits(hash, leaf, log[..|earlier|], earlier); Collides(hash, x, y)
  }

  /**
   * A log whose first |earlier| entries have the root of `earlier` really starts with `earlier`, or
   * the two lists themselves yield two inputs with one digest.
   */
  lemma PrefixBinding<T(!new)>(hash: Bytes -> Digest, leaf: T -> Option<Bytes>, earlier: seq<T>, log: seq<T>)
    requires Injective(leaf) && |earlier| <= |log|
    requires Root(hash, leaf, earlier).Some? && Root(hash, leaf, log[..|earlier|]) == Root(hash, leaf, earlier)
    ensures earlier <= log || PrefixClash(hash, leaf, earlier, log)
  {
    Binding(hash, leaf, log[..|earlier|], earlier);
  }
}
