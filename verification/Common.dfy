/** Vocabulary shared by the models: bytes, optional values, splitting on a delimiter, sums over maps. */
module Common {

  newtype Byte = x: int | 0 <= x < 256

  /** A second in nanoseconds, the unit of every clock here. */
  const SECOND: nat := 1_000_000_000

  datatype Option<+T> = None | Some(value: T)

  function Max(a: int, b: int): (m: int)
    ensures m >= a && m >= b && (m == a || m == b)
  {
    if a < b then b else a
  }

  function Min(a: int, b: int): (m: int)
    ensures m <= a && m <= b && (m == a || m == b)
  {
    if a < b then a else b
  }

  /** The pieces between the delimiters; never empty, as with Rust's `split`. */
  function Split<T(==)>(s: seq<T>, d: T): (pieces: seq<seq<T>>)
    ensures |pieces| > 0
    ensures forall i :: 0 <= i < |pieces| ==> d !in pieces[i]
  {
    if s == [] then [[]]
    else
      var rest := Split(s[1..], d);
      if s[0] == d then [[]] + rest else [[s[0]] + rest[0]] + rest[1..]
  }

  /** The pieces glued back together with the delimiter in between. */
  function Join<T>(pieces: seq<seq<T>>, d: T): (s: seq<T>)
    requires |pieces| > 0
  {
    if |pieces| == 1 then pieces[0] else pieces[0] + [d] + Join(pieces[1..], d)
  }

  lemma {:induction false} JoinOfSplit<T>(s: seq<T>, d: T)
    ensures Join(Split(s, d), d) == s
  {
    if s != [] {
      JoinOfSplit(s[1..], d);
      var rest := Split(s[1..], d);
      if s[0] == d {
        assert Split(s, d)[1..] == rest;
      } else {
        var pieces := [[s[0]] + rest[0]] + rest[1..];
        assert pieces[1..] == rest[1..];
        assert s == [s[0]] + s[1..];
      }
    }
  }

  lemma {:induction false} SplitOfPiece<T>(p: seq<T>, d: T)
    requires d !in p
    ensures Split(p, d) == [p]
  {
    if p != [] {
      SplitOfPiece(p[1..], d);
      assert p == [p[0]] + p[1..];
    }
  }

  lemma {:induction false} SplitOfPrefix<T>(p: seq<T>, s: seq<T>, d: T)
    requires d !in p
    ensures Split(p + [d] + s, d) == [p] + Split(s, d)
  {
    var w := p + [d] + s;
    if p == [] {
      assert w[1..] == s;
    } else {
      SplitOfPrefix(p[1..], s, d);
      assert w[1..] == p[1..] + [d] + s;
      assert p == [p[0]] + p[1..];
    }
  }

  lemma {:induction false} SplitOfJoin<T>(pieces: seq<seq<T>>, d: T)
    requires |pieces| > 0
    requires forall i :: 0 <= i < |pieces| ==> d !in pieces[i]
    ensures Split(Join(pieces, d), d) == pieces
  {
    if |pieces| == 1 {
      SplitOfPiece(pieces[0], d);
    } else {
      SplitOfJoin(pieces[1..], d);
      SplitOfPrefix(pieces[0], Join(pieces[1..], d), d);
    }
  }

  /** Concatenation of a sequence of pieces. */
  function Concat<T>(pieces: seq<seq<T>>): (s: seq<T>)
  {
    if pieces == [] then [] else pieces[0] + Concat(pieces[1..])
  }

  // ----- Sums over maps. -----

  ghost function Pick<K, V>(m: map<K, V>): (k: K)
    requires m != map[]
    ensures k in m
  {
    var k :| k in m; k
  }

  /** The sum of `f` over the values of a map. */
  ghost function Total<K, V>(m: map<K, V>, f: V -> int): int
    decreases |m|
  {
    if m == map[] then 0
    else
      var k := Pick(m);
      assert (m - {k}).Keys == m.Keys - {k};
      f(m[k]) + Total(m - {k}, f)
  }

  /** Any entry may be counted first. */
  lemma {:induction false} TotalMinus<K, V>(m: map<K, V>, k: K, f: V -> int)
    requires k in m
    ensures Total(m, f) == f(m[k]) + Total(m - {k}, f)
    decreases |m|
  {
    var p := Pick(m);
    if p != k {
      assert (m - {p}).Keys == m.Keys - {p};
      TotalMinus(m - {p}, k, f);
      assert (m - {k}).Keys == m.Keys - {k};
      TotalMinus(m - {k}, p, f);
      assert (m - {p}) - {k} == (m - {k}) - {p};
    }
  }
}
