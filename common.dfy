/** Small value types and sequence facts shared by every component. */
module Common {

  datatype Option<T> = None | Some(value: T)

  /** No element occurs twice. */
  predicate NoDup<T(==)>(s: seq<T>)
  {
    forall i, j :: 0 <= i < j < |s| ==> s[i] != s[j]
  }

  /** The set of elements of a sequence. */
  function Elems<T>(s: seq<T>): set<T>
  {
    set x | x in s
  }

  /** Position of the first occurrence of `x` in `s`. */
  function IndexOf<T(==)>(s: seq<T>, x: T): (i: nat)
    requires x in s
    ensures i < |s| && s[i] == x
    ensures forall j :: 0 <= j < i ==> s[j] != x
  {
    if s[0] == x then 0 else 1 + IndexOf(s[1..], x)
  }

  /** Some element of a non-empty set. */
  method Pick<T>(s: set<T>) returns (x: T)
    requires s != {}
    ensures x in s
  {
    x :| x in s;
  }

  /** A prefix of a prefix. */
  lemma PrefixOfPrefix<T>(s: seq<T>, k: nat, i: nat)
    requires i <= k <= |s|
    ensures s[..k][..i] == s[..i]
  {
  }

  /** Moving one key from the keys still to visit to those visited keeps the partition of `all`. */
  lemma MoveOne<K>(done: set<K>, todo: set<K>, all: set<K>, k: K)
    requires done + todo == all && done !! todo && k in todo
    ensures (done + {k}) + (todo - {k}) == all && (done + {k}) !! (todo - {k})
  {
  }

  /** A duplicate-free sequence has as many distinct elements as entries. */
  lemma {:induction false} NoDupCard<T>(s: seq<T>)
    requires NoDup(s)
    ensures |Elems(s)| == |s|
  {
    if s != [] {
      var init := s[..|s| - 1];
      assert NoDup(init);
      NoDupCard(init);
      assert Elems(s) == Elems(init) + {s[|s| - 1]};
      assert s[|s| - 1] !in Elems(init);
    }
  }

  /** A subset is no larger than its superset. */
  lemma {:induction false} SubsetCard<T>(a: set<T>, b: set<T>)
    requires a <= b
    ensures |a| <= |b|
    decreases |b|
  {
    if a != {} {
      var x :| x in a;
      SubsetCard(a - {x}, b - {x});
    }
  }

  /**
   * `x % c` by repeated subtraction and `a * b` by repeated addition (ModIsRemainder,
   * ProductIsMul). Being recursive, they are unfolded only where a proof needs them, which
   * keeps nonlinear arithmetic out of the proofs that merely mention them.
   */
  function Mod(x: nat, c: nat): (r: nat)
    requires c > 0
    ensures r < c
    decreases x
  {
    if x < c then x else Mod(x - c, c)
  }

  function Product(a: nat, b: nat): nat
    decreases a
  {
    if a == 0 then 0 else Product(a - 1, b) + b
  }

  /** A multiple of c strictly between -c and c is zero. */
  lemma MultipleInOpenRange(k: int, c: int)
    requires c > 0 && -c < k * c < c
    ensures k == 0
  {
  }

  /** Euclidean division is unique: y = q * c + r with 0 <= r < c fixes y % c. */
  lemma RemainderUnique(y: int, c: int, q: int, r: int)
    requires c > 0 && 0 <= r < c && y == q * c + r
    ensures y % c == r
  {
    var q2, r2 := y / c, y % c;
    assert y == q2 * c + r2;
    assert (q - q2) * c == r2 - r;
    MultipleInOpenRange(q - q2, c);
  }

  /** Mod is `%` on non-negative operands. */
  lemma {:induction false} ModIsRemainder(x: nat, c: nat)
    requires c > 0
    ensures Mod(x, c) == x % c
    decreases x
  {
    if x >= c {
      ModIsRemainder(x - c, c);
      var q, r := (x - c) / c, (x - c) % c;
      assert x - c == q * c + r;
      assert x == (q + 1) * c + r;
      RemainderUnique(x, c, q + 1, r);
    } else {
      RemainderUnique(x, c, 0, x);
    }
  }

  /** Product is multiplication. */
  lemma {:induction false} ProductIsMul(a: nat, b: nat)
    ensures Product(a, b) == a * b
    decreases a
  {
    if a > 0 {
      ProductIsMul(a - 1, b);
      assert (a - 1) * b + b == a * b;
    }
  }
}
