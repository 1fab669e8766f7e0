/** `Ramachandran_Analysis`: the sliding window that turns a backbone atom
    table into one (phi, psi) dihedral pair per interior CA atom, and the
    three-way split of those pairs by residue name that the plots use. */
module Ramachandran {
  import opened PyRuntime
  import opened Tools

  // ---------------------------------------------------------------------
  // Data
  // ---------------------------------------------------------------------

  /** One row of the atom table: `atom_name`, `residue_name` and the
      coordinates `x, y, z` (columns 2:5), already read as numbers. */
  datatype AtomRow = AtomRow(atomName: string, residueName: string, pos: Vec3)

  /** A numpy float64 as far as the angles need it: a real value or NaN. */
  datatype Float = Num(v: real) | NaN

  /** One entry of `AngleData`: the dict {residue_name, phi, psi}. */
  datatype AngleRecord = AngleRecord(residueName: string, phi: Float, psi: Float)

  const CA := " CA "
  const N := " N  "
  const C := " C  "

  // ---------------------------------------------------------------------
  // Selecting the windows (line 30)
  // ---------------------------------------------------------------------

  /** The positions below `n` of the rows whose atom name is ' CA ', in
      increasing order (`CaBelowSelects`). */
  function CaBelow(rows: seq<AtomRow>, n: nat): (cas: seq<nat>)
    requires n <= |rows|
    ensures forall k :: 0 <= k < |cas| ==> cas[k] < n
  {
    if n == 0 then []
    else CaBelow(rows, n - 1) + (if rows[n - 1].atomName == CA then [n - 1] else [])
  }

  /** The index labels of the rows whose atom name is ' CA ', with the
      default index, whose labels are the positions. */
  function CaPositions(rows: seq<AtomRow>): (cas: seq<nat>)
    ensures forall k :: 0 <= k < |cas| ==> cas[k] < |rows|
  {
    CaBelow(rows, |rows|)
  }

  /** Python's `s[1:-1]`: everything but the first and the last item. */
  function Interior(s: seq<nat>): (r: seq<nat>)
    ensures |r| == if |s| <= 2 then 0 else |s| - 2
    ensures forall k :: 0 <= k < |r| ==> r[k] == s[k + 1]
  {
    if |s| <= 2 then [] else s[1..|s| - 1]
  }

  /** `iloc[i, 2:5]`: a negative position counts from the end; a position
      outside [-len, len) raises IndexError, represented by None. */
  function ILoc(rows: seq<AtomRow>, i: int): (p: Option<Vec3>)
    ensures p.Some? <==> -|rows| <= i < |rows|
    ensures 0 <= i < |rows| ==> p == Some(rows[i].pos)
    ensures -|rows| <= i < 0 ==> p == Some(rows[|rows| + i].pos)
  {
    if 0 <= i < |rows| then Some(rows[i].pos)
    else if -|rows| <= i < 0 then Some(rows[|rows| + i].pos)
    else None
  }

  // ---------------------------------------------------------------------
  // The angle of one window (lines 36-72)
  // ---------------------------------------------------------------------

  /** `np.sign` of a real. */
  function Sign(r: real): (s: real)
    ensures s == 0.0 <==> r == 0.0
    ensures s == 1.0 <==> r > 0.0
    ensures s == -1.0 <==> r < 0.0
  {
    if r > 0.0 then 1.0 else if r < 0.0 then -1.0 else 0.0
  }

  /** `np.arccos`: NaN outside [-1, 1]. */
  function Arccos(m: Numerics, c: real): (a: Float)
    ensures a.Num? <==> -1.0 <= c <= 1.0
  {
    if -1.0 <= c <= 1.0 then Num(m.arccos(c)) else NaN
  }

  /** `np.degrees`. */
  function Degrees(m: Numerics, t: real): real
    requires m.pi > 0.0
  {
    t * 180.0 / m.pi
  }

  /** The signed angle in degrees between plane normals `p` and `q` (None
      when numpy made them NaN): the arccos of their dot product, with the
      sign of the dot product of `p` and the bond vector `d`. NaN spreads
      through every operation. */
  function Dihedral(m: Numerics, p: Option<Vec3>, q: Option<Vec3>, d: Vec3): (a: Float)
    requires m.pi > 0.0
    ensures a.Num? ==> p.Some? && q.Some?
  {
    if p.None? || q.None? then NaN
    else
      match Arccos(m, Dot(p.value, q.value))
      case NaN => NaN
      case Num(t) => Num(Degrees(m, Sign(Dot(p.value, d)) * t))
  }

  /** phi of residue i from C(i-1), N(i), CA(i) and C(i). */
  function Phi(m: Numerics, cPrev: Vec3, n: Vec3, ca: Vec3, c: Vec3): Float
    requires Lawful(m)
  {
    Dihedral(m, NormVecCross(m, cPrev, n, ca), NormVecCross(m, n, ca, c), Sub(c, ca))
  }

  /** psi of residue i from N(i), CA(i), C(i) and N(i+1). */
  function Psi(m: Numerics, n: Vec3, ca: Vec3, c: Vec3, nNext: Vec3): Float
    requires Lawful(m)
  {
    Dihedral(m, NormVecCross(m, n, ca, c), NormVecCross(m, ca, c, nNext), Sub(nNext, c))
  }

  /** One pass of the loop body for the CA at position `ca`: the five rows
      `ca-2 .. ca+2` are read with `iloc`, so the window raises IndexError
      (None) exactly when `ca + 2` runs past the table; `ca - 2` is -1 for
      the second row and then wraps round to the last row. */
  function Window(m: Numerics, rows: seq<AtomRow>, ca: nat): (w: Option<AngleRecord>)
    requires Lawful(m)
    requires ca < |rows|
    ensures w.Some? <==> ca + 2 < |rows|
    ensures w.Some? ==> w.value.residueName == rows[ca].residueName
  {
    var cPrev := ILoc(rows, ca - 2);
    var n := ILoc(rows, ca - 1);
    var a := ILoc(rows, ca);
    var c := ILoc(rows, ca + 1);
    var nNext := ILoc(rows, ca + 2);
    if cPrev.None? || n.None? || a.None? || c.None? || nNext.None? then None
    else
      Some(AngleRecord(rows[ca].residueName,
                       Phi(m, cPrev.value, n.value, a.value, c.value),
                       Psi(m, n.value, a.value, c.value, nNext.value)))
  }

  /** The record of a window whose five rows need no wrap-round: the
      residue name of the CA row, phi of rows ca-2 .. ca+1 and psi of rows
      ca-1 .. ca+2. */
  function AtomsRecord(m: Numerics, rows: seq<AtomRow>, ca: nat): AngleRecord
    requires Lawful(m)
    requires 2 <= ca && ca + 2 < |rows|
  {
    AngleRecord(rows[ca].residueName,
                Phi(m, rows[ca - 2].pos, rows[ca - 1].pos, rows[ca].pos, rows[ca + 1].pos),
                Psi(m, rows[ca - 1].pos, rows[ca].pos, rows[ca + 1].pos, rows[ca + 2].pos))
  }

  /** Away from the ends of the table, a window's phi is the dihedral of
      C(i-1), N(i), CA(i), C(i) and its psi that of N(i), CA(i), C(i),
      N(i+1), read from the rows ca-2 .. ca+2. */
  lemma WindowAtoms(m: Numerics, rows: seq<AtomRow>, ca: nat)
    requires Lawful(m)
    requires 2 <= ca && ca + 2 < |rows|
    ensures Window(m, rows, ca) == Some(AtomsRecord(m, rows, ca))
  {
    assert ILoc(rows, ca - 2) == Some(rows[ca - 2].pos);
    assert ILoc(rows, ca - 1) == Some(rows[ca - 1].pos);
    assert ILoc(rows, ca) == Some(rows[ca].pos);
    assert ILoc(rows, ca + 1) == Some(rows[ca + 1].pos);
    assert ILoc(rows, ca + 2) == Some(rows[ca + 2].pos);
  }

  /** The window of the second row (ca = 1) wraps round: `iloc[-1]` reads
      C(i-1) from the last row of the table. */
  lemma WindowWraps(m: Numerics, rows: seq<AtomRow>)
    requires Lawful(m)
    requires 3 < |rows|
    ensures Window(m, rows, 1) ==
              Some(AngleRecord(rows[1].residueName,
                               Phi(m, rows[|rows| - 1].pos, rows[0].pos, rows[1].pos, rows[2].pos),
                               Psi(m, rows[0].pos, rows[1].pos, rows[2].pos, rows[3].pos)))
  {
    assert ILoc(rows, -1) == Some(rows[|rows| - 1].pos);
    assert ILoc(rows, 0) == Some(rows[0].pos);
    assert ILoc(rows, 1) == Some(rows[1].pos);
    assert ILoc(rows, 2) == Some(rows[2].pos);
    assert ILoc(rows, 3) == Some(rows[3].pos);
  }

  // ---------------------------------------------------------------------
  // The whole sweep (lines 30-81)
  // ---------------------------------------------------------------------

  /** What the loop over `ca_indices` leaves behind: the records appended
      and whether it ran to the end rather than stopping at an IndexError. */
  datatype Sweep = Sweep(records: seq<AngleRecord>, completed: bool)

  /** The loop over the CA positions `cas`: one record per window, in order,
      until a window raises (`SweepOverStopsAtFirstRaise`). */
  function SweepOver(m: Numerics, rows: seq<AtomRow>, cas: seq<nat>): (s: Sweep)
    requires Lawful(m)
    requires forall k :: 0 <= k < |cas| ==> cas[k] < |rows|
    ensures |s.records| <= |cas|
  {
    if cas == [] then Sweep([], true)
    else
      match Window(m, rows, cas[0])
      case None => Sweep([], false)
      case Some(r) =>
        var t := SweepOver(m, rows, cas[1..]);
        Sweep([r] + t.records, t.completed)
  }

  /** The k-th record is the k-th window's. */
  lemma {:induction false} SweepOverKeepsWindows(m: Numerics, rows: seq<AtomRow>, cas: seq<nat>)
    requires Lawful(m)
    requires forall k :: 0 <= k < |cas| ==> cas[k] < |rows|
    ensures var s := SweepOver(m, rows, cas);
            forall k :: 0 <= k < |s.records| ==> Window(m, rows, cas[k]) == Some(s.records[k])
  {
    if cas != [] {
      var w := Window(m, rows, cas[0]);
      if w.Some? {
        var rest := cas[1..];
        SweepOverKeepsWindows(m, rows, rest);
        var t := SweepOver(m, rows, rest);
        assert SweepOver(m, rows, cas) == Sweep([w.value] + t.records, t.completed);
        assert forall k :: 1 <= k < |cas| ==> rest[k - 1] == cas[k];
      }
    }
  }

  /** The sweep completes, with one record per window, exactly when no
      window raises, and otherwise it stops at the first window that does. */
  lemma {:induction false} SweepOverStopsAtFirstRaise(m: Numerics, rows: seq<AtomRow>, cas: seq<nat>)
    requires Lawful(m)
    requires forall k :: 0 <= k < |cas| ==> cas[k] < |rows|
    ensures var s := SweepOver(m, rows, cas);
            && (s.completed <==> forall k :: 0 <= k < |cas| ==> Window(m, rows, cas[k]).Some?)
            && (s.completed ==> |s.records| == |cas|)
            && (!s.completed ==> |s.records| < |cas| && Window(m, rows, cas[|s.records|]).None?)
  {
    if cas != [] {
      var w := Window(m, rows, cas[0]);
      if w.Some? {
        var rest := cas[1..];
        SweepOverStopsAtFirstRaise(m, rows, rest);
        var t := SweepOver(m, rows, rest);
        assert SweepOver(m, rows, cas) == Sweep([w.value] + t.records, t.completed);
        assert forall k :: 1 <= k < |cas| ==> rest[k - 1] == cas[k];
        if t.completed {
          forall k | 0 <= k < |cas|
            ensures Window(m, rows, cas[k]).Some?
          {
            if k > 0 {
              assert Window(m, rows, rest[k - 1]).Some?;
            }
          }
        } else {
          assert cas[1 + |t.records|] == rest[|t.records|];
          assert !Window(m, rows, cas[1 + |t.records|]).Some?;
        }
      } else {
        assert SweepOver(m, rows, cas) == Sweep([], false);
      }
    }
  }

  /** The windows `getAngles` visits: all CA rows but the first and last. */
  function Windows(rows: seq<AtomRow>): (cas: seq<nat>)
    ensures forall k :: 0 <= k < |cas| ==> cas[k] < |rows|
  {
    Interior(CaPositions(rows))
  }

  /** What `getAngles` computes from an atom table. */
  function Angles(m: Numerics, rows: seq<AtomRow>): Sweep
    requires Lawful(m)
  {
    SweepOver(m, rows, Windows(rows))
  }

  // ---------------------------------------------------------------------
  // The analysis object
  // ---------------------------------------------------------------------

  /** The three groups the plots show (lines 140-142). */
  datatype Groups = Groups(rest: seq<AngleRecord>, gly: seq<AngleRecord>, pro: seq<AngleRecord>)

  /** How `getAngles` ends: normally (also when it returns at once without a
      table), with the IndexError of a window that runs past the table, or
      with the KeyError of a table without an `atom_name` column. */
  datatype Outcome = Finished | IndexErrorRaised | KeyErrorRaised

  /** What the data half of `plot()` gives: the three groups, the error of
      reading `angle_data` when `angle_df` was never set, or the KeyError of
      an angle frame without a `residue_name` column. */
  datatype PlotData = Split(groups: Groups) | UnboundAngleData | MissingResidueColumn

  class Analysis {
    /** `self.AtomData`: None when the object was built without a table. A
        table with no rows stands for `pd.DataFrame.from_dict([])`, which has
        no columns at all. */
    var atomData: Option<seq<AtomRow>>
    /** `self.AngleData`, the list of angle dicts. */
    var angleData: seq<AngleRecord>
    /** `self.angle_df`: None while the attribute has not been set; an empty
        list stands for the column-less frame `from_dict([])`. */
    var angleDf: Option<seq<AngleRecord>>

    constructor(atomData: Option<seq<AtomRow>>)
      ensures this.atomData == atomData && angleData == [] && angleDf == None
    {
      this.atomData := atomData;
      angleData := [];
      angleDf := None;
    }

    /** `getAngles()`: clear `AngleData`, append one record per window, then
        build `angle_df` from it. Without a table it returns at once and
        changes nothing. On a table without rows, and so without columns,
        the mask of line 30 raises KeyError before anything is cleared. A
        window that runs past the table raises IndexError; the records
        appended before it stay and `angle_df` keeps its old value. */
    method GetAngles(m: Numerics) returns (outcome: Outcome)
      requires Lawful(m)
      modifies this
      ensures atomData == old(atomData)
      ensures atomData.None? ==> outcome == Finished && angleData == old(angleData) && angleDf == old(angleDf)
      ensures atomData == Some([]) ==>
                outcome == KeyErrorRaised && angleData == old(angleData) && angleDf == old(angleDf)
      ensures atomData.Some? && atomData.value != [] ==>
                var s := Angles(m, atomData.value);
                && angleData == s.records
                && (outcome == IndexErrorRaised <==> !s.completed)
                && (outcome == Finished <==> s.completed)
                && angleDf == (if s.completed then Some(s.records) else old(angleDf))
    {
      if atomData.None? {
        return Finished;
      }
      var rows := atomData.value;
      if rows == [] {
        return KeyErrorRaised;
      }
      var caIndices := Windows(rows);
      angleData := [];
      var k := 0;
      while k < |caIndices|
        invariant 0 <= k <= |caIndices|
        invariant SweepOver(m, rows, caIndices) == SweepFrom(m, rows, caIndices, k, angleData)
        invariant atomData == old(atomData) && angleDf == old(angleDf)
      {
        var w := Window(m, rows, caIndices[k]);
        if w.None? {
          SweepStops(m, rows, caIndices, k, angleData);
          return IndexErrorRaised;
        }
        SweepSteps(m, rows, caIndices, k, angleData);
        angleData := angleData + [w.value];
        k := k + 1;
      }
      angleDf := Some(angleData);
      return Finished;
    }

    /** Not a method of the source: it states that `getAngles()` run twice
        on the same table leaves what one run leaves, since `AngleData` is
        cleared first, so nothing piles up. */
    method GetAnglesTwice(m: Numerics) returns (outcome: Outcome)
      requires Lawful(m)
      modifies this
      ensures atomData == old(atomData)
      ensures atomData.Some? && atomData.value != [] ==> angleData == Angles(m, atomData.value).records
      ensures atomData.None? || atomData == Some([]) ==> angleData == old(angleData)
    {
      var _ := GetAngles(m);
      outcome := GetAngles(m);
    }

    /** The data half of `plot()` when no file is given: the three groups of
        `angle_df`. When `angle_df` was never set the source prints a message
        and then fails on the unset `angle_data`; when `getAngles` produced no
        record the frame has no `residue_name` column and line 140 raises
        KeyError. */
    method Plot() returns (g: PlotData)
      ensures angleDf.None? ==> g == UnboundAngleData
      ensures angleDf == Some([]) ==> g == MissingResidueColumn
      ensures angleDf.Some? && angleDf.value != [] ==> g == Split(Partition(angleDf.value))
    {
      if angleDf.None? {
        return UnboundAngleData;
      }
      if angleDf.value == [] {
        return MissingResidueColumn;
      }
      return Split(Partition(angleDf.value));
    }
  }

  /** What the sweep of `cas` becomes when the records `done` are the sweep
      of the first `k` windows: the loop invariant of `GetAngles`. */
  function SweepFrom(m: Numerics, rows: seq<AtomRow>, cas: seq<nat>, k: nat, done: seq<AngleRecord>): Sweep
    requires Lawful(m)
    requires k <= |cas| && forall j :: 0 <= j < |cas| ==> cas[j] < |rows|
  {
    var t := SweepOver(m, rows, cas[k..]);
    Sweep(done + t.records, t.completed)
  }

  lemma SweepSteps(m: Numerics, rows: seq<AtomRow>, cas: seq<nat>, k: nat, done: seq<AngleRecord>)
    requires Lawful(m)
    requires k < |cas| && forall j :: 0 <= j < |cas| ==> cas[j] < |rows|
    requires Window(m, rows, cas[k]).Some?
    ensures SweepFrom(m, rows, cas, k, done)
            == SweepFrom(m, rows, cas, k + 1, done + [Window(m, rows, cas[k]).value])
  {
    assert cas[k..][1..] == cas[k + 1..];
  }

  lemma SweepStops(m: Numerics, rows: seq<AtomRow>, cas: seq<nat>, k: nat, done: seq<AngleRecord>)
    requires Lawful(m)
    requires k < |cas| && forall j :: 0 <= j < |cas| ==> cas[j] < |rows|
    requires Window(m, rows, cas[k]).None?
    ensures SweepFrom(m, rows, cas, k, done) == Sweep(done, false)
  {
  }

  // ---------------------------------------------------------------------
  // The residue groups (lines 140-142)
  // ---------------------------------------------------------------------

  predicate IsRest(r: AngleRecord) {
    r.residueName != "GLY" && r.residueName != "PRO"
  }

  predicate IsGly(r: AngleRecord) {
    r.residueName == "GLY"
  }

  predicate IsPro(r: AngleRecord) {
    r.residueName == "PRO"
  }

  /** `angle_data.loc[mask]`: the records the mask keeps, in their order. */
  function Filter(s: seq<AngleRecord>, keep: AngleRecord -> bool): (r: seq<AngleRecord>)
    ensures |r| <= |s|
  {
    if s == [] then [] else Filter(Init(s), keep) + (if keep(Last(s)) then [Last(s)] else [])
  }

  /** All but the last record. */
  function Init(s: seq<AngleRecord>): (r: seq<AngleRecord>)
    requires s != []
    ensures |r| == |s| - 1 && forall k :: 0 <= k < |r| ==> r[k] == s[k]
  {
    s[..|s| - 1]
  }

  function Last(s: seq<AngleRecord>): AngleRecord
    requires s != []
  {
    s[|s| - 1]
  }

  function Partition(s: seq<AngleRecord>): Groups {
    Groups(Filter(s, IsRest), Filter(s, IsGly), Filter(s, IsPro))
  }

  // ---------------------------------------------------------------------
  // Properties of the window angles
  // ---------------------------------------------------------------------

  lemma SquareOfDifference(a: real, b: real)
    ensures (a - b) * (a - b) == a * a - 2.0 * (a * b) + b * b
    ensures (a + b) * (a + b) == a * a + 2.0 * (a * b) + b * b
  {
  }

  /** |p - q|^2 and |p + q|^2 in terms of the dot product. */
  lemma NormSqOfSumAndDifference(p: Vec3, q: Vec3)
    ensures NormSq(Sub(p, q)) == NormSq(p) - 2.0 * Dot(p, q) + NormSq(q)
    ensures NormSq(Vec3(p.x + q.x, p.y + q.y, p.z + q.z)) == NormSq(p) + 2.0 * Dot(p, q) + NormSq(q)
  {
    SquareOfDifference(p.x, q.x);
    SquareOfDifference(p.y, q.y);
    SquareOfDifference(p.z, q.z);
  }

  lemma NormSqNonNegative(a: Vec3)
    ensures NormSq(a) >= 0.0
    ensures NormSq(a) == 0.0 ==> a == Zero
  {
    Square(a.x);
    Square(a.y);
    Square(a.z);
    if a != Zero {
      NormSqPositive(a);
    }
  }

  /** The dot product of two unit vectors lies in [-1, 1], so `np.arccos`
      of it is never NaN. */
  lemma UnitDotBounded(p: Vec3, q: Vec3)
    requires NormSq(p) == 1.0 && NormSq(q) == 1.0
    ensures -1.0 <= Dot(p, q) <= 1.0
  {
    NormSqOfSumAndDifference(p, q);
    NormSqNonNegative(Sub(p, q));
    NormSqNonNegative(Vec3(p.x + q.x, p.y + q.y, p.z + q.z));
  }

  /** Two unit vectors whose dot product is -1 point in opposite directions. */
  lemma AntiParallelUnits(p: Vec3, q: Vec3)
    requires NormSq(p) == 1.0 && NormSq(q) == 1.0 && Dot(p, q) == -1.0
    ensures p == Neg(q)
  {
    var s := Vec3(p.x + q.x, p.y + q.y, p.z + q.z);
    NormSqOfSumAndDifference(p, q);
    calc {
      NormSq(s);
      NormSq(p) + 2.0 * Dot(p, q) + NormSq(q);
      1.0 + 2.0 * -1.0 + 1.0;
      0.0;
    }
    NormSqNonNegative(s);
    SumZeroIsNeg(p, q, s);
  }

  lemma SumZeroIsNeg(p: Vec3, q: Vec3, s: Vec3)
    requires s == Vec3(p.x + q.x, p.y + q.y, p.z + q.z) && s == Zero
    ensures p == Neg(q)
  {
  }

  lemma DegreesBounds(m: Numerics, t: real)
    requires m.pi > 0.0 && 0.0 <= t <= m.pi
    ensures 0.0 <= Degrees(m, t) <= 180.0
    ensures Degrees(m, -t) == -Degrees(m, t)
    ensures Degrees(m, t) == 0.0 <==> t == 0.0
    ensures t < m.pi ==> Degrees(m, t) < 180.0
  {
    var k := 180.0 / m.pi;
    assert Degrees(m, t) == t * k;
    assert Degrees(m, -t) == -(t * k);
    assert t * k <= m.pi * k;
    assert m.pi * k == 180.0;
  }

  /** The sign rule of the docstring (lines 19-23): for two unit normals the
      angle exists, lies in [-180, 180], its size is the angle between the
      normals, it is 0 when `d` lies in the plane of `p`, and otherwise its
      sign is the side of that plane `d` points to. */
  lemma {:induction false} DihedralSignRule(m: Numerics, p: Vec3, q: Vec3, d: Vec3)
    requires Lawful(m)
    requires NormSq(p) == 1.0 && NormSq(q) == 1.0
    ensures Dihedral(m, Some(p), Some(q), d).Num?
    ensures -180.0 <= Dihedral(m, Some(p), Some(q), d).v <= 180.0
    ensures Dot(p, d) == 0.0 ==> Dihedral(m, Some(p), Some(q), d).v == 0.0
    ensures Dihedral(m, Some(p), Some(q), d).v > 0.0 ==> Dot(p, d) > 0.0
    ensures Dihedral(m, Some(p), Some(q), d).v < 0.0 ==> Dot(p, d) < 0.0
    ensures Dot(p, d) > 0.0 ==> Dihedral(m, Some(p), Some(q), d).v == Degrees(m, m.arccos(Dot(p, q)))
    ensures Dot(p, d) < 0.0 ==> Dihedral(m, Some(p), Some(q), d).v == -Degrees(m, m.arccos(Dot(p, q)))
  {
    UnitDotBounded(p, q);
    var t := m.arccos(Dot(p, q));
    assert 0.0 <= t <= m.pi;
    DegreesBounds(m, t);
    var sg := Sign(Dot(p, d));
    if sg == 0.0 {
      assert sg * t == 0.0;
      assert Degrees(m, 0.0) == 0.0;
    } else if sg == 1.0 {
      assert sg * t == t;
    } else {
      assert sg * t == -t;
    }
  }

  /** phi is NaN exactly when one of its two planes is undefined, that is
      when C(i-1), N(i), CA(i) or N(i), CA(i), C(i) are collinear. Otherwise
      its size is the angle between the two plane normals, its sign is the
      side of the first plane that `C(i) - CA(i)` points to, and it lies
      strictly between -180 and 180. */
  lemma {:induction false} PhiRule(m: Numerics, cPrev: Vec3, n: Vec3, ca: Vec3, c: Vec3)
    requires Lawful(m)
    ensures Phi(m, cPrev, n, ca, c).NaN? <==> Collinear(cPrev, n, ca) || Collinear(n, ca, c)
    ensures Phi(m, cPrev, n, ca, c).Num? ==>
              var p := NormVecCross(m, cPrev, n, ca).value;
              var q := NormVecCross(m, n, ca, c).value;
              var phi := Phi(m, cPrev, n, ca, c).v;
              && -180.0 < phi < 180.0
              && (Dot(p, Sub(c, ca)) == 0.0 ==> phi == 0.0)
              && (Dot(p, Sub(c, ca)) > 0.0 ==> phi == Degrees(m, m.arccos(Dot(p, q))))
              && (Dot(p, Sub(c, ca)) < 0.0 ==> phi == -Degrees(m, m.arccos(Dot(p, q))))
              && (phi > 0.0 ==> Dot(p, Sub(c, ca)) > 0.0)
              && (phi < 0.0 ==> Dot(p, Sub(c, ca)) < 0.0)
  {
    var p := NormVecCross(m, cPrev, n, ca);
    var q := NormVecCross(m, n, ca, c);
    if p.Some? && q.Some? {
      NormVecCrossIsUnitNormal(m, cPrev, n, ca);
      NormVecCrossIsUnitNormal(m, n, ca, c);
      DihedralSignRule(m, p.value, q.value, Sub(c, ca));
      if Dot(p.value, q.value) == -1.0 {
        FlatTransPhiIsZero(m, cPrev, n, ca, c);
      } else {
        OpenRange(m, p.value, q.value);
      }
    }
  }

  /** psi: the same rule with the planes N(i), CA(i), C(i) and CA(i), C(i),
      N(i+1) and the deciding vector `N(i+1) - C(i)`. */
  lemma {:induction false} PsiRule(m: Numerics, n: Vec3, ca: Vec3, c: Vec3, nNext: Vec3)
    requires Lawful(m)
    ensures Psi(m, n, ca, c, nNext).NaN? <==> Collinear(n, ca, c) || Collinear(ca, c, nNext)
    ensures Psi(m, n, ca, c, nNext).Num? ==>
              var p := NormVecCross(m, n, ca, c).value;
              var q := NormVecCross(m, ca, c, nNext).value;
              var psi := Psi(m, n, ca, c, nNext).v;
              && -180.0 < psi < 180.0
              && (Dot(p, Sub(nNext, c)) == 0.0 ==> psi == 0.0)
              && (Dot(p, Sub(nNext, c)) > 0.0 ==> psi == Degrees(m, m.arccos(Dot(p, q))))
              && (Dot(p, Sub(nNext, c)) < 0.0 ==> psi == -Degrees(m, m.arccos(Dot(p, q))))
              && (psi > 0.0 ==> Dot(p, Sub(nNext, c)) > 0.0)
              && (psi < 0.0 ==> Dot(p, Sub(nNext, c)) < 0.0)
  {
    var p := NormVecCross(m, n, ca, c);
    var q := NormVecCross(m, ca, c, nNext);
    if p.Some? && q.Some? {
      NormVecCrossIsUnitNormal(m, n, ca, c);
      NormVecCrossIsUnitNormal(m, ca, c, nNext);
      DihedralSignRule(m, p.value, q.value, Sub(nNext, c));
      if Dot(p.value, q.value) == -1.0 {
        FlatTransPsiIsZero(m, n, ca, c, nNext);
      } else {
        OpenRange(m, p.value, q.value);
      }
    }
  }

  /** Unit normals that are not opposite give an angle below 180 degrees. */
  lemma OpenRange(m: Numerics, p: Vec3, q: Vec3)
    requires Lawful(m)
    requires NormSq(p) == 1.0 && NormSq(q) == 1.0 && Dot(p, q) != -1.0
    ensures 0.0 <= Degrees(m, m.arccos(Dot(p, q))) < 180.0
  {
    UnitDotBounded(p, q);
    var t := m.arccos(Dot(p, q));
    assert 0.0 <= t < m.pi;
    DegreesBounds(m, t);
  }

  /** With exact arithmetic a flat trans window, whose two planes have
      opposite normals, gets phi = 0 rather than 180: the deciding vector
      `C(i) - CA(i)` lies in the second plane, hence in the first. */
  lemma {:induction false} FlatTransPhiIsZero(m: Numerics, cPrev: Vec3, n: Vec3, ca: Vec3, c: Vec3)
    requires Lawful(m)
    requires !Collinear(cPrev, n, ca) && !Collinear(n, ca, c)
    requires Dot(NormVecCross(m, cPrev, n, ca).value, NormVecCross(m, n, ca, c).value) == -1.0
    ensures Phi(m, cPrev, n, ca, c) == Num(0.0)
  {
    var p := NormVecCross(m, cPrev, n, ca).value;
    var q := NormVecCross(m, n, ca, c).value;
    NormVecCrossIsUnitNormal(m, cPrev, n, ca);
    NormVecCrossIsUnitNormal(m, n, ca, c);
    AntiParallelUnits(p, q);
    assert Dot(q, Sub(c, ca)) == 0.0;
    assert Dot(p, Sub(c, ca)) == -Dot(q, Sub(c, ca));
    DihedralSignRule(m, p, q, Sub(c, ca));
  }

  /** The same for psi: `N(i+1) - C(i)` lies in the plane CA(i), C(i),
      N(i+1), hence in the opposite plane N(i), CA(i), C(i). */
  lemma {:induction false} FlatTransPsiIsZero(m: Numerics, n: Vec3, ca: Vec3, c: Vec3, nNext: Vec3)
    requires Lawful(m)
    requires !Collinear(n, ca, c) && !Collinear(ca, c, nNext)
    requires Dot(NormVecCross(m, n, ca, c).value, NormVecCross(m, ca, c, nNext).value) == -1.0
    ensures Psi(m, n, ca, c, nNext) == Num(0.0)
  {
    var p := NormVecCross(m, n, ca, c).value;
    var q := NormVecCross(m, ca, c, nNext).value;
    NormVecCrossIsUnitNormal(m, n, ca, c);
    NormVecCrossIsUnitNormal(m, ca, c, nNext);
    AntiParallelUnits(p, q);
    assert Dot(q, Sub(nNext, c)) == 0.0;
    assert Dot(p, Sub(nNext, c)) == -Dot(q, Sub(nNext, c));
    DihedralSignRule(m, p, q, Sub(nNext, c));
  }

  // ---------------------------------------------------------------------
  // Properties of the sweep
  // ---------------------------------------------------------------------

  /** Every position `CaBelow` picks is a CA row. */
  lemma {:induction false} CaBelowAreCa(rows: seq<AtomRow>, n: nat)
    requires n <= |rows|
    ensures forall k :: 0 <= k < |CaBelow(rows, n)| ==> rows[CaBelow(rows, n)[k]].atomName == CA
  {
    if n > 0 {
      CaBelowAreCa(rows, n - 1);
      var prev := CaBelow(rows, n - 1);
      var cas := CaBelow(rows, n);
      assert cas == prev + (if rows[n - 1].atomName == CA then [n - 1] else []);
      forall k | 0 <= k < |cas|
        ensures rows[cas[k]].atomName == CA
      {
        if k < |prev| {
          assert cas[k] == prev[k];
        }
      }
    }
  }

  /** The positions `CaBelow` picks increase. */
  lemma {:induction false} CaBelowIncreasing(rows: seq<AtomRow>, n: nat)
    requires n <= |rows|
    ensures forall k, l :: 0 <= k < l < |CaBelow(rows, n)| ==> CaBelow(rows, n)[k] < CaBelow(rows, n)[l]
  {
    if n > 0 {
      CaBelowIncreasing(rows, n - 1);
      var prev := CaBelow(rows, n - 1);
      var cas := CaBelow(rows, n);
      assert cas == prev + (if rows[n - 1].atomName == CA then [n - 1] else []);
      forall k, l | 0 <= k < l < |cas|
        ensures cas[k] < cas[l]
      {
        assert cas[k] == prev[k];
        if l < |prev| {
          assert cas[l] == prev[l];
        } else {
          assert cas[l] == n - 1;
        }
      }
    }
  }

  /** Every CA row below `n` is picked by `CaBelow`. */
  lemma {:induction false} CaBelowComplete(rows: seq<AtomRow>, n: nat)
    requires n <= |rows|
    ensures forall i :: 0 <= i < n && rows[i].atomName == CA ==> i in CaBelow(rows, n)
  {
    if n > 0 {
      CaBelowComplete(rows, n - 1);
      var prev := CaBelow(rows, n - 1);
      var cas := CaBelow(rows, n);
      assert cas == prev + (if rows[n - 1].atomName == CA then [n - 1] else []);
      forall i | 0 <= i < n && rows[i].atomName == CA
        ensures i in cas
      {
        if i == n - 1 {
          assert cas[|prev|] == i;
        } else {
          assert i in prev;
        }
      }
    }
  }

  /** `CaBelow` picks exactly the CA rows below `n`, in increasing order. */
  lemma {:induction false} CaBelowSelects(rows: seq<AtomRow>, n: nat)
    requires n <= |rows|
    ensures var cas := CaBelow(rows, n);
            && (forall k :: 0 <= k < |cas| ==> rows[cas[k]].atomName == CA)
            && (forall k, l :: 0 <= k < l < |cas| ==> cas[k] < cas[l])
            && (forall i :: 0 <= i < n && rows[i].atomName == CA ==> i in cas)
  {
    CaBelowAreCa(rows, n);
    CaBelowIncreasing(rows, n);
    CaBelowComplete(rows, n);
  }

  /** The CA mask of line 30 selects exactly the rows named ' CA ', in
      increasing position. */
  lemma CaPositionsSelects(rows: seq<AtomRow>)
    ensures var cas := CaPositions(rows);
            && (forall k :: 0 <= k < |cas| ==> rows[cas[k]].atomName == CA)
            && (forall k, l :: 0 <= k < l < |cas| ==> cas[k] < cas[l])
            && (forall i :: 0 <= i < |rows| && rows[i].atomName == CA ==> i in cas)
  {
    assert CaPositions(rows) == CaBelow(rows, |rows|);
    CaBelowSelects(rows, |rows|);
  }

  /** The windows are the CA rows but the first and the last, in increasing
      position. */
  lemma WindowsAreInnerCaRows(rows: seq<AtomRow>)
    ensures var cas := CaPositions(rows);
            var w := Windows(rows);
            && |w| == (if |cas| <= 2 then 0 else |cas| - 2)
            && (forall k :: 0 <= k < |w| ==> w[k] == cas[k + 1] && rows[w[k]].atomName == CA)
            && (forall k, l :: 0 <= k < l < |w| ==> w[k] < w[l])
  {
    CaPositionsSelects(rows);
  }

  /** `getAngles` records one angle pair per window, in window order, each
      carrying the residue of its CA row (line 75), and it runs to the end
      exactly when the last window's `ca + 2` is still inside the table. */
  lemma AnglesFollowWindows(m: Numerics, rows: seq<AtomRow>)
    requires Lawful(m)
    ensures var s := Angles(m, rows);
            var w := Windows(rows);
            && |s.records| <= |w|
            && (s.completed ==> |s.records| == |w|)
            && (forall k :: 0 <= k < |s.records| ==> s.records[k].residueName == rows[w[k]].residueName)
    ensures Angles(m, rows).completed <==> |Windows(rows)| == 0 || Windows(rows)[|Windows(rows)| - 1] + 2 < |rows|
  {
    var w := Windows(rows);
    var s := Angles(m, rows);
    WindowsAreInnerCaRows(rows);
    SweepOverKeepsWindows(m, rows, w);
    SweepOverStopsAtFirstRaise(m, rows, w);
    if |w| > 0 && w[|w| - 1] + 2 < |rows| {
      forall k | 0 <= k < |w|
        ensures Window(m, rows, w[k]).Some?
      {
        if k < |w| - 1 {
          assert w[k] < w[|w| - 1];
        }
      }
    }
    forall k | 0 <= k < |s.records|
      ensures s.records[k].residueName == rows[w[k]].residueName
    {
      assert Window(m, rows, w[k]) == Some(s.records[k]);
    }
  }

  /** The atom name a strictly ordered backbone has at each position. */
  function BackboneName(i: nat): string {
    if i % 3 == 0 then N else if i % 3 == 1 then CA else C
  }

  /** A table of whole residues in strict N, CA, C order. */
  predicate StrictTriplets(rows: seq<AtomRow>) {
    |rows| % 3 == 0 && forall i :: 0 <= i < |rows| ==> rows[i].atomName == BackboneName(i)
  }

  /** The CA positions of `j` whole residues: 1, 4, 7, ... */
  function StrictCas(j: nat): (cas: seq<nat>)
    ensures |cas| == j && forall k :: 0 <= k < j ==> cas[k] == 3 * k + 1
  {
    if j == 0 then [] else StrictCas(j - 1) + [3 * (j - 1) + 1]
  }

  /** Residue `r` is N, CA, C at rows 3r .. 3r + 2. */
  predicate ResidueAt(rows: seq<AtomRow>, r: nat) {
    3 * r + 3 <= |rows|
    && rows[3 * r].atomName == N && rows[3 * r + 1].atomName == CA && rows[3 * r + 2].atomName == C
  }

  /** The first `j` whole residues hold their CA atoms at 1, 4, 7, ... */
  lemma {:induction false} StrictCaBelow(rows: seq<AtomRow>, j: nat, e: nat)
    requires e == 3 * j && e <= |rows|
    requires forall r :: 0 <= r < j ==> ResidueAt(rows, r)
    ensures CaBelow(rows, e) == StrictCas(j)
  {
    if j > 0 {
      var b := 3 * (j - 1);
      assert ResidueAt(rows, j - 1);
      StrictCaBelow(rows, j - 1, b);
      StrictResidue(rows, b, e);
      var prev := StrictCas(j - 1);
      assert CaBelow(rows, b) == prev;
      assert StrictCas(j) == prev + [b + 1];
    }
  }

  /** Every residue of a strict table is N, CA, C. */
  lemma StrictNames(rows: seq<AtomRow>, r: nat)
    requires StrictTriplets(rows) && 3 * r + 3 <= |rows|
    ensures ResidueAt(rows, r)
  {
    assert (3 * r) % 3 == 0 && (3 * r + 1) % 3 == 1 && (3 * r + 2) % 3 == 2;
    assert rows[3 * r].atomName == BackboneName(3 * r);
    assert rows[3 * r + 1].atomName == BackboneName(3 * r + 1);
    assert rows[3 * r + 2].atomName == BackboneName(3 * r + 2);
  }

  /** One whole residue adds exactly its CA position. */
  lemma StrictResidue(rows: seq<AtomRow>, b: nat, e: nat)
    requires e == b + 3 && e <= |rows|
    requires rows[b].atomName == N && rows[b + 1].atomName == CA && rows[b + 2].atomName == C
    ensures CaBelow(rows, e) == CaBelow(rows, b) + [b + 1]
  {
    assert N[1] != CA[1] && C[2] != CA[2];
    assert CaBelow(rows, b + 1) == CaBelow(rows, b);
    assert CaBelow(rows, b + 2) == CaBelow(rows, b) + [b + 1];
    assert CaBelow(rows, e) == CaBelow(rows, b + 2);
  }

  /** For a chain of n whole residues in strict N, CA, C order there are
      max(n - 2, 0) windows, the k-th is the CA at row 3k + 4, and all five
      rows it reads lie inside the table. */
  lemma StrictChainWindows(rows: seq<AtomRow>, n: nat)
    requires StrictTriplets(rows) && |rows| == 3 * n
    ensures var w := Windows(rows);
            && |w| == (if n <= 2 then 0 else n - 2)
            && forall k :: 0 <= k < |w| ==> w[k] == 3 * k + 4 && w[k] + 2 < |rows|
  {
    forall r | 0 <= r < n
      ensures ResidueAt(rows, r)
    {
      StrictNames(rows, r);
    }
    StrictCaBelow(rows, n, |rows|);
    assert CaPositions(rows) == StrictCas(n);
  }

  /** On such a chain `getAngles` runs to the end and records max(n - 2, 0)
      angle pairs. The k-th is the record of the residue at row 3k + 4: phi
      from rows 3k + 2 .. 3k + 5 and psi from rows 3k + 3 .. 3k + 6. */
  lemma StrictChainAngles(m: Numerics, rows: seq<AtomRow>, n: nat)
    requires Lawful(m) && StrictTriplets(rows) && |rows| == 3 * n
    ensures var s := Angles(m, rows);
            && s.completed
            && |s.records| == (if n <= 2 then 0 else n - 2)
            && forall k :: 0 <= k < |s.records| ==> 3 * k + 6 < |rows| && s.records[k] == AtomsRecord(m, rows, 3 * k + 4)
  {
    StrictChainWindows(rows, n);
    AnglesFollowWindows(m, rows);
    StrictChainRecords(m, rows, n);
  }

  /** The records of such a chain are those of the rows 3k + 2 .. 3k + 6. */
  lemma StrictChainRecords(m: Numerics, rows: seq<AtomRow>, n: nat)
    requires Lawful(m) && StrictTriplets(rows) && |rows| == 3 * n
    ensures var s := Angles(m, rows);
            forall k :: 0 <= k < |s.records| ==> 3 * k + 6 < |rows| && s.records[k] == AtomsRecord(m, rows, 3 * k + 4)
  {
    var w := Windows(rows);
    var s := Angles(m, rows);
    StrictChainWindows(rows, n);
    SweepOverKeepsWindows(m, rows, w);
    forall k | 0 <= k < |s.records|
      ensures 3 * k + 6 < |rows| && s.records[k] == AtomsRecord(m, rows, 3 * k + 4)
    {
      assert w[k] == 3 * k + 4;
      WindowAtoms(m, rows, w[k]);
    }
  }

  // ---------------------------------------------------------------------
  // Properties of the residue groups
  // ---------------------------------------------------------------------

  /** Every record satisfies exactly one of the three masks. */
  lemma MasksAreExclusive(r: AngleRecord)
    ensures IsRest(r) || IsGly(r) || IsPro(r)
    ensures !(IsRest(r) && IsGly(r)) && !(IsRest(r) && IsPro(r)) && !(IsGly(r) && IsPro(r))
  {
  }

  /** The three groups together hold every record exactly once: as
      multisets they add up to the input. */
  lemma {:induction false} PartitionCovers(s: seq<AngleRecord>)
    ensures multiset(Partition(s).rest) + multiset(Partition(s).gly) + multiset(Partition(s).pro) == multiset(s)
  {
    if s != [] {
      PartitionCovers(Init(s));
      assert Init(s) + [Last(s)] == s;
      PartitionStep(Init(s), Last(s));
    }
  }

  lemma PartitionStep(init: seq<AngleRecord>, x: AngleRecord)
    requires multiset(Partition(init).rest) + multiset(Partition(init).gly) + multiset(Partition(init).pro)
             == multiset(init)
    ensures var s := init + [x];
            multiset(Partition(s).rest) + multiset(Partition(s).gly) + multiset(Partition(s).pro) == multiset(s)
  {
    var s := init + [x];
    assert Init(s) == init && Last(s) == x;
    assert multiset(s) == multiset(init) + multiset{x};
    var g, h := Partition(init), Partition(s);
    var a, b, c := multiset(g.rest), multiset(g.gly), multiset(g.pro);
    MultisetStep(a, b, c, multiset(init), x);
    MasksAreExclusive(x);
    if IsGly(x) {
      assert h == Groups(g.rest, g.gly + [x], g.pro);
      assert multiset(h.gly) == b + multiset{x};
    } else if IsPro(x) {
      assert h == Groups(g.rest, g.gly, g.pro + [x]);
      assert multiset(h.pro) == c + multiset{x};
    } else {
      assert h == Groups(g.rest + [x], g.gly, g.pro);
      assert multiset(h.rest) == a + multiset{x};
    }
  }

  /** The sizes of the three groups add up to the number of records. */
  lemma PartitionSizes(s: seq<AngleRecord>)
    ensures |Partition(s).rest| + |Partition(s).gly| + |Partition(s).pro| == |s|
  {
    PartitionCovers(s);
    var g := Partition(s);
    assert |multiset(g.rest) + multiset(g.gly) + multiset(g.pro)| == |multiset(s)|;
  }

  /** Adding one record to any one of three groups adds it to their union. */
  lemma MultisetStep(a: multiset<AngleRecord>, b: multiset<AngleRecord>, c: multiset<AngleRecord>,
                     m: multiset<AngleRecord>, x: AngleRecord)
    requires a + b + c == m
    ensures (a + multiset{x}) + b + c == m + multiset{x}
    ensures a + (b + multiset{x}) + c == m + multiset{x}
    ensures a + b + (c + multiset{x}) == m + multiset{x}
  {
  }

  /** Where each kept record came from: the increasing positions of the
      records the mask keeps. */
  function Kept(s: seq<AngleRecord>, keep: AngleRecord -> bool): (idx: seq<nat>)
    ensures |idx| == |Filter(s, keep)|
    ensures forall k :: 0 <= k < |idx| ==> idx[k] < |s| && keep(s[idx[k]])
    ensures forall k, l :: 0 <= k < l < |idx| ==> idx[k] < idx[l]
  {
    if s == [] then []
    else Kept(Init(s), keep) + (if keep(Last(s)) then [|s| - 1] else [])
  }

  /** Each group keeps its records in input order: the k-th record of a
      group is the input record at the k-th kept position. */
  lemma {:induction false} FilterIsStable(s: seq<AngleRecord>, keep: AngleRecord -> bool)
    ensures forall k :: 0 <= k < |Filter(s, keep)| ==> Filter(s, keep)[k] == s[Kept(s, keep)[k]]
  {
    if s != [] {
      FilterIsStable(Init(s), keep);
      var last := if keep(Last(s)) then [Last(s)] else [];
      assert Filter(s, keep) == Filter(Init(s), keep) + last;
      assert Kept(s, keep) == Kept(Init(s), keep) + (if keep(Last(s)) then [|s| - 1] else []);
    }
  }

  /** Conversely every record the mask accepts is kept. */
  lemma {:induction false} FilterIsComplete(s: seq<AngleRecord>, keep: AngleRecord -> bool)
    ensures forall i :: 0 <= i < |s| && keep(s[i]) ==> i in Kept(s, keep)
  {
    if s != [] {
      FilterIsComplete(Init(s), keep);
      var prev := Kept(Init(s), keep);
      var last: seq<nat> := if keep(Last(s)) then [|s| - 1] else [];
      assert Kept(s, keep) == prev + last;
      forall i | 0 <= i < |s| && keep(s[i])
        ensures i in prev + last
      {
        if i < |s| - 1 {
          assert Init(s)[i] == s[i];
        } else {
          assert (prev + last)[|prev|] == i;
        }
      }
    }
  }
}
