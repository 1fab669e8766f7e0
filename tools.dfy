/** The helpers of imports.py: `normVecCross`, the unit normal of the plane
    through three points, and `sampleWithConstraints`, which shuffles a pool in
    place and returns its first item that matches a pattern. */
module Tools {
  import opened PyRuntime

  // ---------------------------------------------------------------------
  // Vectors in 3-space over the reals
  // ---------------------------------------------------------------------

  datatype Vec3 = Vec3(x: real, y: real, z: real)

  const Zero := Vec3(0.0, 0.0, 0.0)

  function Sub(a: Vec3, b: Vec3): Vec3 {
    Vec3(a.x - b.x, a.y - b.y, a.z - b.z)
  }

  function Neg(a: Vec3): Vec3 {
    Vec3(-a.x, -a.y, -a.z)
  }

  function Scale(k: real, a: Vec3): Vec3 {
    Vec3(k * a.x, k * a.y, k * a.z)
  }

  function Dot(a: Vec3, b: Vec3): real {
    a.x * b.x + a.y * b.y + a.z * b.z
  }

  /** `np.cross` on two 3-vectors. */
  function Cross(a: Vec3, b: Vec3): Vec3 {
    Vec3(a.y * b.z - a.z * b.y, a.z * b.x - a.x * b.z, a.x * b.y - a.y * b.x)
  }

  function NormSq(a: Vec3): real {
    Dot(a, a)
  }

  lemma Square(r: real)
    ensures r * r >= 0.0
    ensures r != 0.0 ==> r * r > 0.0
  {
  }

  lemma NormSqPositive(a: Vec3)
    requires a != Zero
    ensures NormSq(a) > 0.0
  {
    Square(a.x);
    Square(a.y);
    Square(a.z);
    calc {
      NormSq(a);
      a.x * a.x + a.y * a.y + a.z * a.z;
    > 0.0;
    }
  }

  // ---------------------------------------------------------------------
  // The numpy routines the core calls but does not define
  // ---------------------------------------------------------------------

  /** `np.sqrt` (inside `np.linalg.norm`), `np.arccos` and the constant
      `np.pi` by which `np.degrees` divides. */
  datatype Numerics = Numerics(sqrt: real -> real, arccos: real -> real, pi: real)

  /** The square root of a non-negative number is the non-negative number
      whose square it is. */
  ghost predicate SqrtLaw(m: Numerics) {
    forall t :: 0.0 <= t ==> 0.0 <= m.sqrt(t) && m.sqrt(t) * m.sqrt(t) == t
  }

  /** What the angle computations need of numpy: a positive pi, a true square
      root, and an arccos that maps [-1, 1] into [0, pi] with its two end
      values, reaching pi only at -1. */
  ghost predicate Lawful(m: Numerics) {
    && m.pi > 0.0
    && SqrtLaw(m)
    && (forall c :: -1.0 <= c <= 1.0 ==> 0.0 <= m.arccos(c) <= m.pi)
    && (forall c :: -1.0 < c <= 1.0 ==> m.arccos(c) < m.pi)
    && m.arccos(1.0) == 0.0
    && m.arccos(-1.0) == m.pi
  }

  // ---------------------------------------------------------------------
  // normVecCross
  // ---------------------------------------------------------------------

  /** Three points whose two edge vectors have a zero cross product: the
      points are collinear or two of them coincide. */
  predicate Collinear(x: Vec3, y: Vec3, z: Vec3) {
    Cross(Sub(y, x), Sub(z, y)) == Zero
  }

  /** `normVecCross`: the cross product of y - x and z - y, divided by its norm.
      When the cross product is zero numpy divides 0 by 0 and yields a vector
      of NaNs, represented here by None. Otherwise the result is a unit vector
      perpendicular to both edges (`NormVecCrossIsUnitNormal`). */
  function NormVecCross(m: Numerics, x: Vec3, y: Vec3, z: Vec3): (n: Option<Vec3>)
    requires SqrtLaw(m)
    ensures n.None? <==> Collinear(x, y, z)
  {
    var c := Cross(Sub(y, x), Sub(z, y));
    if c == Zero then None
    else
      var s := m.sqrt(NormSq(c));
      NormSqPositive(c);
      UnitAfterScaling(c, s);
      Some(Scale(1.0 / s, c))
  }

  /** A defined normal is a unit vector perpendicular to both edges, on the
      side of the right-hand rule: it points along `(y - x) × (z - y)`. */
  lemma NormVecCrossIsUnitNormal(m: Numerics, x: Vec3, y: Vec3, z: Vec3)
    requires SqrtLaw(m)
    ensures NormVecCross(m, x, y, z).Some? ==>
              var n := NormVecCross(m, x, y, z).value;
              && Dot(n, Sub(y, x)) == 0.0 && Dot(n, Sub(z, y)) == 0.0
              && NormSq(n) == 1.0
              && Dot(n, Cross(Sub(y, x), Sub(z, y))) > 0.0
  {
    var c := Cross(Sub(y, x), Sub(z, y));
    if c != Zero {
      var s := m.sqrt(NormSq(c));
      NormSqPositive(c);
      UnitAfterScaling(c, s);
      PerpendicularAfterScaling(Sub(y, x), Sub(z, y), 1.0 / s);
      PositiveAlongScaling(c, 1.0 / s);
    }
  }

  lemma PositiveAlongScaling(c: Vec3, k: real)
    requires NormSq(c) > 0.0 && k > 0.0
    ensures Dot(Scale(k, c), c) > 0.0
  {
    assert Dot(Scale(k, c), c) == k * NormSq(c);
  }

  lemma UnitAfterScaling(c: Vec3, s: real)
    requires NormSq(c) > 0.0 && 0.0 <= s && s * s == NormSq(c)
    ensures s > 0.0 && NormSq(Scale(1.0 / s, c)) == 1.0
  {
    var k := 1.0 / s;
    assert k * s == 1.0;
    calc {
      NormSq(Scale(k, c));
      k * c.x * (k * c.x) + k * c.y * (k * c.y) + k * c.z * (k * c.z);
      (k * k) * NormSq(c);
      (k * k) * (s * s);
      (k * s) * (k * s);
    }
  }

  lemma PerpendicularAfterScaling(v: Vec3, w: Vec3, k: real)
    ensures Dot(Scale(k, Cross(v, w)), v) == 0.0
    ensures Dot(Scale(k, Cross(v, w)), w) == 0.0
  {
    var c := Cross(v, w);
    assert Dot(Scale(k, c), v) == k * Dot(c, v);
    assert Dot(Scale(k, c), w) == k * Dot(c, w);
  }

  /** Reversing the three points flips the normal. */
  lemma {:induction false} NormVecCrossReversed(m: Numerics, x: Vec3, y: Vec3, z: Vec3)
    requires SqrtLaw(m)
    requires !Collinear(x, y, z)
    ensures NormVecCross(m, x, y, z).Some? && NormVecCross(m, z, y, x).Some?
    ensures NormVecCross(m, z, y, x).value == Neg(NormVecCross(m, x, y, z).value)
  {
    var c := Cross(Sub(y, x), Sub(z, y));
    var c' := Cross(Sub(y, z), Sub(x, y));
    CrossOfReversed(x, y, z);
    NegKeepsNorm(c);
    var s := m.sqrt(NormSq(c));
    NormSqPositive(c);
    UnitAfterScaling(c, s);
    ScaleOfNeg(1.0 / s, c);
  }

  lemma CrossOfReversed(x: Vec3, y: Vec3, z: Vec3)
    ensures Cross(Sub(y, z), Sub(x, y)) == Neg(Cross(Sub(y, x), Sub(z, y)))
  {
  }

  lemma NegKeepsNorm(c: Vec3)
    ensures NormSq(Neg(c)) == NormSq(c)
  {
  }

  lemma ScaleOfNeg(k: real, c: Vec3)
    ensures Scale(k, Neg(c)) == Neg(Scale(k, c))
  {
  }

  lemma UnitRoot(s: real)
    requires 0.0 <= s && s * s == 1.0
    ensures s == 1.0
  {
    assert (s - 1.0) * (s + 1.0) == s * s - 1.0;
    assert s + 1.0 > 0.0;
  }

  lemma SqrtOfOne(m: Numerics)
    requires SqrtLaw(m)
    ensures m.sqrt(1.0) == 1.0
  {
    UnitRoot(m.sqrt(1.0));
  }

  /** When the cross product already has norm 1, it is its own normalisation. */
  lemma NormVecCrossOfUnit(m: Numerics, x: Vec3, y: Vec3, z: Vec3)
    requires SqrtLaw(m)
    requires NormSq(Cross(Sub(y, x), Sub(z, y))) == 1.0
    ensures NormVecCross(m, x, y, z) == Some(Cross(Sub(y, x), Sub(z, y)))
  {
    var c := Cross(Sub(y, x), Sub(z, y));
    assert c != Zero;
    SqrtOfOne(m);
    assert Scale(1.0 / 1.0, c) == c;
  }

  /** Three points turning left around the z-axis: (0,0,0), (1,0,0), (0,1,0)
      has normal (0, 0, 1). */
  lemma NormVecCrossExample(m: Numerics, o: Vec3, ex: Vec3, ey: Vec3)
    requires SqrtLaw(m)
    requires o == Vec3(0.0, 0.0, 0.0) && ex == Vec3(1.0, 0.0, 0.0) && ey == Vec3(0.0, 1.0, 0.0)
    ensures NormVecCross(m, o, ex, ey) == Some(Vec3(0.0, 0.0, 1.0))
  {
    ExampleCross(o, ex, ey);
    UnitZ();
    NormVecCrossOfUnit(m, o, ex, ey);
  }

  /** The same three points read backwards have normal (0, 0, -1). */
  lemma NormVecCrossExampleReversed(m: Numerics, o: Vec3, ex: Vec3, ey: Vec3)
    requires SqrtLaw(m)
    requires o == Vec3(0.0, 0.0, 0.0) && ex == Vec3(1.0, 0.0, 0.0) && ey == Vec3(0.0, 1.0, 0.0)
    ensures NormVecCross(m, ey, ex, o) == Some(Vec3(0.0, 0.0, -1.0))
  {
    NormVecCrossExample(m, o, ex, ey);
    NormVecCrossReversed(m, o, ex, ey);
    assert Neg(Vec3(0.0, 0.0, 1.0)) == Vec3(0.0, 0.0, -1.0);
  }

  lemma ExampleCross(o: Vec3, ex: Vec3, ey: Vec3)
    requires o == Vec3(0.0, 0.0, 0.0) && ex == Vec3(1.0, 0.0, 0.0) && ey == Vec3(0.0, 1.0, 0.0)
    ensures Cross(Sub(ex, o), Sub(ey, ex)) == Vec3(0.0, 0.0, 1.0)
  {
  }

  lemma UnitZ()
    ensures NormSq(Vec3(0.0, 0.0, 1.0)) == 1.0
  {
  }

  // ---------------------------------------------------------------------
  // sampleWithConstraints
  // ---------------------------------------------------------------------

  /** The first item of `s` that `pattern` accepts, or None (the source's
      `False`) when there is none (`FirstMatchIsFirst`). */
  function FirstMatch(s: seq<string>, pattern: string -> bool): Option<string> {
    if s == [] then None
    else if pattern(s[0]) then Some(s[0])
    else FirstMatch(s[1..], pattern)
  }

  /** None exactly when no item matches; otherwise the item at the first
      position that matches. */
  lemma {:induction false} FirstMatchIsFirst(s: seq<string>, pattern: string -> bool)
    ensures FirstMatch(s, pattern).None? <==> forall i :: 0 <= i < |s| ==> !pattern(s[i])
    ensures FirstMatch(s, pattern).Some? ==>
              exists i :: 0 <= i < |s| && s[i] == FirstMatch(s, pattern).value && pattern(s[i])
                          && forall j :: 0 <= j < i ==> !pattern(s[j])
  {
    if s != [] && !pattern(s[0]) {
      FirstMatchIsFirst(s[1..], pattern);
      assert forall i :: 1 <= i < |s| ==> s[i] == s[1..][i - 1];
      if FirstMatch(s[1..], pattern).Some? {
        var i :| 0 <= i < |s[1..]| && s[1..][i] == FirstMatch(s, pattern).value && pattern(s[1..][i])
                 && forall j :: 0 <= j < i ==> !pattern(s[1..][j]);
        assert s[i + 1] == FirstMatch(s, pattern).value && pattern(s[i + 1]);
      }
    }
  }

  function Swap(s: seq<string>, i: nat, j: nat): (r: seq<string>)
    requires i < |s| && j < |s|
  {
    s[i := s[j]][j := s[i]]
  }

  /** The rest of a `random.shuffle` pass once slots above `i` are settled:
      CPython swaps slot `i` with a slot `j <= i` drawn at random, for `i` from
      the top down to 1. The draws are the parameter `draw`. */
  function ShuffleDown(s: seq<string>, i: nat, draw: nat -> nat): (r: seq<string>)
    requires i < |s|
    ensures |r| == |s|
    decreases i
  {
    if i == 0 then s else ShuffleDown(Swap(s, i, Pick(draw, i)), i - 1, draw)
  }

  lemma {:induction false} ShuffleDownPermutes(s: seq<string>, i: nat, draw: nat -> nat)
    requires i < |s|
    ensures multiset(ShuffleDown(s, i, draw)) == multiset(s)
    decreases i
  {
    if i > 0 {
      var t := Swap(s, i, Pick(draw, i));
      assert multiset(t) == multiset(s);
      ShuffleDownPermutes(t, i - 1, draw);
    }
  }

  /** `random.shuffle(s)` for the given random draws. */
  function Shuffled(s: seq<string>, draw: nat -> nat): (r: seq<string>) {
    if |s| == 0 then s else ShuffleDown(s, |s| - 1, draw)
  }

  /** Whatever the draws, the shuffled pool holds the same items. */
  lemma ShuffledIsPermutation(s: seq<string>, draw: nat -> nat)
    ensures |Shuffled(s, draw)| == |s| && multiset(Shuffled(s, draw)) == multiset(s)
  {
    if |s| > 0 {
      ShuffleDownPermutes(s, |s| - 1, draw);
    }
  }

  /** `sampleWithConstraints` returns False exactly when no item of the pool
      matches, and otherwise an item of the pool that matches. */
  lemma SampleMatchesPool(s: seq<string>, pattern: string -> bool, draw: nat -> nat)
    ensures FirstMatch(Shuffled(s, draw), pattern).None? <==> forall i :: 0 <= i < |s| ==> !pattern(s[i])
    ensures FirstMatch(Shuffled(s, draw), pattern).Some? ==>
              FirstMatch(Shuffled(s, draw), pattern).value in s
              && pattern(FirstMatch(Shuffled(s, draw), pattern).value)
  {
    var t := Shuffled(s, draw);
    ShuffledIsPermutation(s, draw);
    FirstMatchIsFirst(t, pattern);
    forall i | 0 <= i < |s| && pattern(s[i])
      ensures exists j :: 0 <= j < |t| && pattern(t[j])
    {
      assert s[i] in multiset(t);
      var j :| 0 <= j < |t| && t[j] == s[i];
    }
    forall j | 0 <= j < |t|
      ensures t[j] in s
    {
      assert t[j] in multiset(s);
    }
  }

  /** `random.shuffle(a)` for the given random draws. */
  method Shuffle(a: array<string>, draw: nat -> nat)
    modifies a
    ensures a[..] == Shuffled(old(a[..]), draw)
  {
    if a.Length == 0 {
      return;
    }
    ghost var goal := ShuffleDown(a[..], a.Length - 1, draw);
    var i := a.Length - 1;
    while i > 0
      invariant 0 <= i < a.Length
      invariant ShuffleDown(a[..], i, draw) == goal
    {
      var j := Pick(draw, i);
      ghost var before := a[..];
      ShuffleStep(before, i, draw);
      SwapIn(a, i, j);
      assert a[..] == Swap(before, i, j);
      i := i - 1;
    }
  }

  /** The slot `random.shuffle` swaps slot `i` with. */
  function Pick(draw: nat -> nat, i: nat): (j: nat)
    ensures j <= i
  {
    draw(i) % (i + 1)
  }

  method SwapIn(a: array<string>, i: nat, j: nat)
    requires i < a.Length && j < a.Length
    modifies a
    ensures a[..] == Swap(old(a[..]), i, j)
  {
    a[i], a[j] := a[j], a[i];
  }

  lemma ShuffleStep(s: seq<string>, i: nat, draw: nat -> nat)
    requires 0 < i < |s|
    ensures ShuffleDown(s, i, draw) == ShuffleDown(Swap(s, i, Pick(draw, i)), i - 1, draw)
  {
  }

  /** `sampleWithConstraints(samplePool, pattern)`: shuffle the pool in place,
      then return its first item that matches, or None for `False`. */
  method SampleWithConstraints(samplePool: array<string>, pattern: string -> bool, draw: nat -> nat)
    returns (r: Option<string>)
    modifies samplePool
    ensures samplePool[..] == Shuffled(old(samplePool[..]), draw)
    ensures r == FirstMatch(samplePool[..], pattern)
  {
    Shuffle(samplePool, draw);
    // Scan the shuffled pool in order; the first item the pattern accepts is the result.
    var k := 0;
    while k < samplePool.Length
      invariant 0 <= k <= samplePool.Length
      invariant forall j :: 0 <= j < k ==> !pattern(samplePool[j])
    {
      if pattern(samplePool[k]) {
        r := Some(samplePool[k]);
        FirstMatchAt(samplePool[..], pattern, k);
        return;
      }
      k := k + 1;
    }
    FirstMatchIsFirst(samplePool[..], pattern);
    r := None;
  }

  lemma FirstMatchAt(s: seq<string>, pattern: string -> bool, k: nat)
    requires k < |s| && pattern(s[k])
    requires forall j :: 0 <= j < k ==> !pattern(s[j])
    ensures FirstMatch(s, pattern) == Some(s[k])
  {
    var r := FirstMatch(s, pattern);
    FirstMatchIsFirst(s, pattern);
    var i :| 0 <= i < |s| && s[i] == r.value && pattern(s[i]) && forall j :: 0 <= j < i ==> !pattern(s[j]);
    assert i == k;
  }
}
