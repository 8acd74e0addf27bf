/** Types shared by every component of the model. */
module Prelude {

  datatype Option<+T> = None | Some(value: T)

  type Byte = x: int | 0 <= x < 256
  type Bytes = seq<Byte>

  /** A 32-byte digest, as SHA-256 produces. */
  type Digest = d: Bytes | |d| == 32 witness seq(32, _ => 0)

  /** Two different inputs with the same digest: conclusions name the pair, since some pair always exists. */
  predicate Collides(hash: Bytes -> Digest, x: Bytes, y: Bytes) {
    x != y && hash(x) == hash(y)
  }

  const I64_MAX: int := 0x7fff_ffff_ffff_ffff
  const U64_MAX: int := 0xffff_ffff_ffff_ffff
  const U128_MAX: int := 0xffff_ffff_ffff_ffff_ffff_ffff_ffff_ffff

  /** The number a sequence of bytes stands for, most significant byte first. */
  function BigEndian(bytes: Bytes): nat {
    if bytes == [] then 0 else BigEndian(bytes[..|bytes| - 1]) * 256 + bytes[|bytes| - 1]
  }

  lemma {:induction false} BigEndianInjective(a: Bytes, b: Bytes)
    requires |a| == |b| && BigEndian(a) == BigEndian(b)
    ensures a == b
    decreases |a|
  {
    if a != [] {
      var x, y := a[..|a| - 1], b[..|b| - 1];
      assert BigEndian(a) == BigEndian(x) * 256 + a[|a| - 1] && BigEndian(b) == BigEndian(y) * 256 + b[|b| - 1];
      BigEndianInjective(x, y);
      assert a == x + [a[|a| - 1]] && b == y + [b[|b| - 1]];
    }
  }

  lemma {:induction false} SubsetSize<T>(a: set<T>, b: set<T>)
    requires a <= b
    ensures |a| <= |b|
    decreases |a|
  {
    if a != {} {
      var x :| x in a;
      SubsetSize(a - {x}, b - {x});
    }
  }

  lemma {:induction false} LeastOf(numbers: set<nat>) returns (least: nat)
    requires numbers != {}
    ensures least in numbers && forall n | n in numbers :: least <= n
    decreases |numbers|
  {
    least :| least in numbers;
    var rest := numbers - {least};
    assert numbers == rest + {least};
    if rest != {} {
      var other := LeastOf(rest);
      if other < least {
        least := other;
      }
    }
  }
}
