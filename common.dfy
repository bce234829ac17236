/** Shared vocabulary of the QuizKnow model: identifiers, optional values, the
    outcome of an HTTP handler, the dynamic JavaScript values that travel in
    request bodies, and the JavaScript operators (`===`, truthiness, `||`,
    `Math.round`) the handlers apply to them. */
module Common {

  /** Document ids (Mongo ObjectIds) are compared through their string form. */
  type Id = string

  datatype Option<T> = None | Some(value: T)

  /** The user roles of the application. */
  datatype Role = Student | Instructor | Admin

  /** The error statuses the handlers answer with: 400, 403, 404, and 500 for an
      exception thrown inside the handler. */
  datatype Status = BadRequest | Forbidden | NotFound | ServerError

  /** What a handler answers: a value on success, or an error status. */
  datatype Result<T> = Ok(value: T) | Fail(status: Status)

  /** A JavaScript value decoded from JSON or read from a Mixed schema path.
      Numbers are modelled as integers: every number the core compares is a
      count, an index or a point value. */
  datatype Value =
    | Undefined
    | Null
    | Bool(b: bool)
    | Num(n: int)
    | Str(s: string)
    | Arr(items: seq<Value>)
    | Obj(entries: map<string, Value>)

  predicate IsPrimitive(v: Value) {
    !v.Arr? && !v.Obj?
  }

  /** JavaScript strict equality. Arrays and objects compare by identity, and two
      values decoded from different documents are never the same object, so a
      composite value is never `===` another. */
  predicate StrictEq(a: Value, b: Value) {
    match (a, b)
    case (Undefined, Undefined) => true
    case (Null, Null) => true
    case (Bool(x), Bool(y)) => x == y
    case (Num(x), Num(y)) => x == y
    case (Str(x), Str(y)) => x == y
    case _ => false
  }

  lemma StrictEqMeansPrimitiveEqual(a: Value, b: Value)
    ensures StrictEq(a, b) <==> (IsPrimitive(a) && a == b)
  {
  }

  /** JavaScript truthiness: `undefined`, `null`, `false`, `0` and `""` are falsy. */
  predicate Truthy(v: Value) {
    match v
    case Undefined => false
    case Null => false
    case Bool(b) => b
    case Num(n) => n != 0
    case Str(s) => s != ""
    case _ => true
  }

  /** `x || d` on an optional number: a missing or zero value falls back to `d`. */
  function OrDefault(x: Option<int>, d: int): (r: int)
    ensures x.Some? && x.value != 0 ==> r == x.value
    ensures x.None? || x.value == 0 ==> r == d
  {
    if x.Some? && x.value != 0 then x.value else d
  }

  /** One path of an update body: carried in the body, its value replaces the
      stored one; absent, the stored value is kept. */
  predicate Carried<T(==)>(given: Option<T>, before: T, after: T) {
    (given.Some? ==> after == given.value) && (given.None? ==> after == before)
  }

  /** The value an update leaves at one path. */
  function Overwrite<T>(given: Option<T>, current: T): (r: T)
    ensures given.Some? ==> r == given.value
    ensures given.None? ==> r == current
  {
    if given.Some? then given.value else current
  }

  /** `Math.round(num / den)` for a positive denominator: the nearest integer,
      halves rounded up. The ensures clause is the defining property of that
      integer. */
  function RoundDiv(num: int, den: int): (r: int)
    requires den > 0
    ensures 2 * den * r <= 2 * num + den < 2 * den * (r + 1)
  {
    var q := (2 * num + den) / (2 * den);
    assert (2 * num + den) == 2 * den * q + (2 * num + den) % (2 * den);
    q
  }

  /** `Math.round(s / m * 100)` for a positive total `m`: the rounded percentage. */
  function Percent(s: int, m: int): (r: int)
    requires m > 0
    ensures 2 * m * r <= 200 * s + m < 2 * m * (r + 1)
  {
    RoundDiv(100 * s, m)
  }

  /** A share never exceeds 100 percent, and a non-negative one is non-negative. */
  lemma PercentBounds(s: int, m: int)
    requires m > 0 && 0 <= s <= m
    ensures 0 <= Percent(s, m) <= 100
  {
    var r := Percent(s, m);
    if r < 0 {
      MulMonotone(2 * m, r + 1, 0);
    }
    if r > 100 {
      MulMonotone(2 * m, 101, r);
    }
  }

  lemma MulMonotone(a: int, b: int, c: int)
    requires a >= 0 && b <= c
    ensures a * b <= a * c
  {
  }

  /** Rounding is monotone in the numerator. */
  lemma PercentMonotone(s1: int, s2: int, m: int)
    requires m > 0 && s1 <= s2
    ensures Percent(s1, m) <= Percent(s2, m)
  {
    var r1, r2 := Percent(s1, m), Percent(s2, m);
    if r1 > r2 {
      MulMonotone(2 * m, r2 + 1, r1);
    }
  }

  /** `Math.round(s / m * 100)` for any total `m`: a negative total is the same
      ratio as `-s / -m`, and `None` is the NaN or Infinity of a zero total. */
  function RoundedPercent(s: int, m: int): (r: Option<int>)
    ensures r.None? <==> m == 0
    ensures m > 0 && 0 <= s <= m ==> 0 <= r.value <= 100
  {
    if m == 0 then None
    else if m > 0 then
      PercentBounds2(s, m);
      Some(Percent(s, m))
    else Some(Percent(-s, -m))
  }

  lemma PercentBounds2(s: int, m: int)
    requires m > 0
    ensures 0 <= s <= m ==> 0 <= Percent(s, m) <= 100
  {
    if 0 <= s <= m {
      PercentBounds(s, m);
    }
  }

  /** `(num / den) * 100` in exact arithmetic: `None` stands for the NaN or
      Infinity that JavaScript yields when `den` is zero. */
  function RealPercent(num: int, den: int): (r: Option<real>)
    ensures r.Some? <==> den != 0
    ensures den > 0 && 0 <= num <= den ==> 0.0 <= r.value <= 100.0
  {
    if den == 0 then None else Some((num as real / den as real) * 100.0)
  }

  /** The number of elements of `s` satisfying `p` (`s.filter(p).length`). */
  function CountWhere<T>(s: seq<T>, p: T -> bool): (n: nat)
    ensures n <= |s|
  {
    if s == [] then 0 else (if p(s[0]) then 1 else 0) + CountWhere(s[1..], p)
  }

  /** Two sequences whose entries pass their tests position by position have
      the same count. */
  lemma {:induction false} CountWhereAgrees<A, B>(xs: seq<A>, ys: seq<B>, p: A -> bool, q: B -> bool)
    requires |xs| == |ys|
    requires forall i :: 0 <= i < |xs| ==> p(xs[i]) == q(ys[i])
    ensures CountWhere(xs, p) == CountWhere(ys, q)
    decreases |xs|
  {
    if xs != [] {
      CountWhereAgrees(xs[1..], ys[1..], p, q);
    }
  }

  /** The elements of `s` satisfying `p`, in order (`s.filter(p)`). */
  function Keep<T(!new)>(s: seq<T>, p: T -> bool): (r: seq<T>)
    ensures |r| <= |s|
    ensures forall x :: x in r <==> x in s && p(x)
  {
    if s == [] then []
    else
      assert forall x :: x in s <==> x == s[0] || x in s[1..];
      (if p(s[0]) then [s[0]] else []) + Keep(s[1..], p)
  }

  /** `s` without its element at index `i` (`s.filter((_, j) => j !== i)`). */
  function RemoveAt<T>(s: seq<T>, i: int): (r: seq<T>)
    ensures !(0 <= i < |s|) ==> r == s
    ensures 0 <= i < |s| ==> r == s[..i] + s[i + 1..]
  {
    if s == [] then []
    else
      var rest := RemoveAt(s[1..], i - 1);
      if i == 0 then rest
      else
        assert 0 < i < |s| ==> [s[0]] + s[1..][..i - 1] == s[..i];
        [s[0]] + rest
  }

  /** `xs.filter(x => x !== o)`. */
  function Without<T(==,!new)>(xs: seq<T>, o: T): (r: seq<T>)
    ensures o !in r
    ensures forall x :: x in r <==> x in xs && x != o
    ensures |r| <= |xs|
  {
    if xs == [] then []
    else
      assert forall x :: x in xs <==> x == xs[0] || x in xs[1..];
      (if xs[0] == o then [] else [xs[0]]) + Without(xs[1..], o)
  }

  /** Removing from a concatenation removes from each part. */
  lemma {:induction false} WithoutAppend<T(!new)>(a: seq<T>, b: seq<T>, o: T)
    ensures Without(a + b, o) == Without(a, o) + Without(b, o)
    decreases |a|
  {
    if a == [] {
      assert a + b == b;
    } else {
      var head := if a[0] == o then [] else [a[0]];
      assert (a + b)[0] == a[0];
      assert (a + b)[1..] == a[1..] + b;
      assert Without(a + b, o) == head + Without(a[1..] + b, o);
      WithoutAppend(a[1..], b, o);
      assert head + (Without(a[1..], o) + Without(b, o)) == (head + Without(a[1..], o)) + Without(b, o);
    }
  }

  /** Removing an item that is not there changes nothing. */
  lemma {:induction false} WithoutAbsent<T(!new)>(xs: seq<T>, o: T)
    requires o !in xs
    ensures Without(xs, o) == xs
    decreases |xs|
  {
    if xs != [] {
      assert o !in xs[1..] by {
        assert forall x :: x in xs[1..] ==> x in xs;
      }
      WithoutAbsent(xs[1..], o);
      assert [xs[0]] + xs[1..] == xs;
    }
  }

  /** No element occurs twice. */
  predicate Distinct<T(==)>(s: seq<T>) {
    forall i, j :: 0 <= i < j < |s| ==> s[i] != s[j]
  }

  /** A sequence without repeats has as many distinct elements as entries. */
  lemma {:induction false} DistinctCardinality<T>(s: seq<T>)
    requires Distinct(s)
    ensures |set x | x in s| == |s|
    decreases |s|
  {
    if s != [] {
      var rest := s[1..];
      assert Distinct(rest);
      DistinctCardinality(rest);
      assert s[0] !in rest;
      assert (set x | x in s) == {s[0]} + (set x | x in rest);
    }
  }

  /** A subset at least as large as its superset is the whole superset. */
  lemma SubsetOfSameSize<T>(a: set<T>, b: set<T>)
    requires a <= b && |a| >= |b|
    ensures a == b
  {
    assert b == a + (b - a);
    assert |b - a| == 0;
  }
}
