/** `PDB_Parser`: fill a queue of structure ids from the cluster list, find a
    chain for each id in its FASTA header, cut that chain's backbone atoms out
    of the PDB file, and collect them. The downloads are parameters: the FASTA and
    PDB downloads map the four-character PDB id to the lines of the response,
    and the cluster list is a sequence of lines. */
module Parsing {
  import opened PyRuntime
  import opened Tools

  // ---------------------------------------------------------------------
  // Constants (lines 11-15)
  // ---------------------------------------------------------------------

  /** `structQueueSIZE`. */
  const StructQueueSize: nat := 125

  /** `BACKBONE_ATOMS`: the atom-name columns of N, CA and C. */
  const Backbone: seq<string> := [" N  ", " CA ", " C  "]

  /** One record of `segAtomData`: the dict {atom_name, residue_name, x, y, z},
      every field still text. */
  datatype AtomRecord = AtomRecord(atomName: string, residueName: string, x: string, y: string, z: string)

  /** The four-character PDB id a structure id starts with (`struct_id[:4]`). */
  function PdbId(structId: string): (r: string)
    ensures |r| == if |structId| < 4 then |structId| else 4
    ensures forall k :: 0 <= k < |r| ==> r[k] == structId[k]
  {
    Slice(structId, 0, 4)
  }

  // ---------------------------------------------------------------------
  // STRUCT_FORMAT = '^.{4}_[0-9]$' (line 12)
  // ---------------------------------------------------------------------

  predicate IsDigit(c: char) {
    '0' <= c <= '9'
  }

  /** `STRUCT_FORMAT.match(s)`: four characters other than a newline, '_',
      a digit, then the end of the string, where `$` also accepts a single
      newline that ends the string. */
  predicate MatchesStructFormat(s: string) {
    && (|s| == 6 || (|s| == 7 && s[6] == '\n'))
    && (forall k :: 0 <= k < 4 ==> s[k] != '\n')
    && s[4] == '_'
    && IsDigit(s[5])
  }

  /** Six characters with '_' at index 4 and a digit at index 5. */
  predicate IsStructId(id: string) {
    |id| == 6 && id[4] == '_' && IsDigit(id[5])
  }

  /** On an item of `line.split()`, which holds no whitespace, the format is
      exactly: six characters, '_' at index 4 and a digit at index 5. */
  lemma StructFormatOfWord(w: string)
    requires forall c :: c in w ==> !IsSpace(c)
    ensures MatchesStructFormat(w) <==> IsStructId(w)
  {
    if |w| == 7 {
      assert w[6] in w;
    }
    if |w| == 6 {
      assert forall k :: 0 <= k < 4 ==> w[k] in w;
    }
  }

  // ---------------------------------------------------------------------
  // getStruct (lines 21-41)
  // ---------------------------------------------------------------------

  /** The id `sampleWithConstraints` draws from one cluster line, None when
      the line is empty or has no item in the format. */
  function Sampled(line: string, draw: nat -> nat): Option<string> {
    if line == [] then None
    else FirstMatch(Shuffled(Words(line), draw), MatchesStructFormat)
  }

  /** A line yields an id exactly when one of its items is in the format,
      and the id is such an item, whatever the draws. */
  lemma SampledIsMatchingItem(line: string, draw: nat -> nat)
    ensures Sampled(line, draw).Some? ==>
              Sampled(line, draw).value in Words(line) && MatchesStructFormat(Sampled(line, draw).value)
    ensures Sampled(line, draw).None? <==> forall w :: w in Words(line) ==> !MatchesStructFormat(w)
  {
    SampleMatchesPool(Words(line), MatchesStructFormat, draw);
  }

  /** The loop of `getStruct` from line `i` on with the queue so far: it
      stops at the end of the lines or, before reading a line, once the
      queue is full. `draws(i)` are the random draws of line `i`'s shuffle. */
  function FillFrom(lines: seq<string>, draws: nat -> nat -> nat, i: nat, queue: seq<string>): (q: seq<string>)
    requires i <= |lines| && |queue| <= StructQueueSize
    ensures |queue| <= |q| <= StructQueueSize
    decreases |lines| - i
  {
    if i == |lines| || |queue| == StructQueueSize then queue
    else
      match Sampled(lines[i], draws(i))
      case None => FillFrom(lines, draws, i + 1, queue)
      case Some(id) => FillFrom(lines, draws, i + 1, queue + [id])
  }

  /** A line read with room in the queue appends what it yields. */
  lemma FillFromOneLine(lines: seq<string>, draws: nat -> nat -> nat, i: nat, queue: seq<string>)
    requires i < |lines| && |queue| < StructQueueSize
    ensures |queue + Picked(lines, draws, i)| <= StructQueueSize
    ensures FillFrom(lines, draws, i, queue) == FillFrom(lines, draws, i + 1, queue + Picked(lines, draws, i))
  {
    if Sampled(lines[i], draws(i)).None? {
      assert queue + Picked(lines, draws, i) == queue;
    }
  }

  /** The queue `getStruct` builds from the cluster lines. */
  function Fill(lines: seq<string>, draws: nat -> nat -> nat): seq<string> {
    FillFrom(lines, draws, 0, [])
  }

  /** The id line `i` adds, as a list of none or one. */
  function Picked(lines: seq<string>, draws: nat -> nat -> nat, i: nat): seq<string>
    requires i < |lines|
  {
    match Sampled(lines[i], draws(i))
    case None => []
    case Some(id) => [id]
  }

  /** The id drawn from every line from `i` on, in line order. */
  function SampledIds(lines: seq<string>, draws: nat -> nat -> nat, i: nat): seq<string>
    requires i <= |lines|
    decreases |lines| - i
  {
    if i == |lines| then [] else Picked(lines, draws, i) + SampledIds(lines, draws, i + 1)
  }

  /** Whether some item of the line is in the format. */
  predicate HasId(line: string) {
    exists w :: w in Words(line) && MatchesStructFormat(w)
  }

  /** The number of lines from `i` on that hold an item in the format. */
  function CountMatchingLines(lines: seq<string>, i: nat): nat
    requires i <= |lines|
    decreases |lines| - i
  {
    if i == |lines| then 0
    else (if HasId(lines[i]) then 1 else 0) + CountMatchingLines(lines, i + 1)
  }

  /** A line adds one id exactly when it holds an item in the format,
      whatever the draws, and that id has the six-character shape. */
  lemma PickedFromLine(lines: seq<string>, draws: nat -> nat -> nat, i: nat)
    requires i < |lines|
    ensures |Picked(lines, draws, i)| == if HasId(lines[i]) then 1 else 0
    ensures forall id :: id in Picked(lines, draws, i) ==> IsStructId(id)
  {
    var r := Sampled(lines[i], draws(i));
    SampledIsMatchingItem(lines[i], draws(i));
    WordsHaveNoSpace(lines[i]);
    if r.Some? {
      assert Picked(lines, draws, i) == [r.value];
      assert r.value in Words(lines[i]) && MatchesStructFormat(r.value);
      StructFormatOfWord(r.value);
    } else {
      assert Picked(lines, draws, i) == [];
    }
  }

  /** The count half of `PickedFromLine`, kept separate because the loop
      proofs that use only the count are cheaper without the shape clause. */
  lemma PickedCount(lines: seq<string>, draws: nat -> nat -> nat, i: nat)
    requires i < |lines|
    ensures |Picked(lines, draws, i)| == if HasId(lines[i]) then 1 else 0
  {
    var r := Sampled(lines[i], draws(i));
    SampledIsMatchingItem(lines[i], draws(i));
    if r.Some? {
      assert Picked(lines, draws, i) == [r.value];
    } else {
      assert Picked(lines, draws, i) == [];
    }
  }

  /** The first `n` items of `s`, or all of them. */
  function Take(s: seq<string>, n: nat): (r: seq<string>)
    ensures |r| == if |s| <= n then |s| else n
    ensures forall k :: 0 <= k < |r| ==> r[k] == s[k]
  {
    if |s| <= n then s else s[..n]
  }

  /** Whatever the earlier lines, the rest of the loop appends the ids drawn
      from the remaining lines until the queue is full. */
  lemma {:induction false} FillFromTakes(lines: seq<string>, draws: nat -> nat -> nat, i: nat, queue: seq<string>)
    requires i <= |lines| && |queue| <= StructQueueSize
    ensures FillFrom(lines, draws, i, queue) == Take(queue + SampledIds(lines, draws, i), StructQueueSize)
    decreases |lines| - i
  {
    var rest := SampledIds(lines, draws, i);
    if i == |lines| {
      assert queue + rest == queue;
    } else if |queue| == StructQueueSize {
      assert (queue + rest)[..StructQueueSize] == queue;
    } else {
      FillFromTakes(lines, draws, i + 1, queue + Picked(lines, draws, i));
      FillFromStep(lines, draws, i, queue);
    }
  }

  lemma FillFromStep(lines: seq<string>, draws: nat -> nat -> nat, i: nat, queue: seq<string>)
    requires i < |lines| && |queue| < StructQueueSize
    requires FillFrom(lines, draws, i + 1, queue + Picked(lines, draws, i))
             == Take((queue + Picked(lines, draws, i)) + SampledIds(lines, draws, i + 1), StructQueueSize)
    ensures FillFrom(lines, draws, i, queue) == Take(queue + SampledIds(lines, draws, i), StructQueueSize)
  {
    var picked := Picked(lines, draws, i);
    var tail := SampledIds(lines, draws, i + 1);
    assert SampledIds(lines, draws, i) == picked + tail;
    var o := Sampled(lines[i], draws(i));
    if o.Some? {
      assert picked == [o.value];
      assert FillFrom(lines, draws, i, queue) == FillFrom(lines, draws, i + 1, queue + picked);
    } else {
      assert picked == [];
      assert queue + picked == queue;
    }
    AppendAssociates(queue, picked, tail);
  }

  lemma AppendAssociates(a: seq<string>, b: seq<string>, c: seq<string>)
    ensures a + (b + c) == (a + b) + c
  {
  }

  /** One id per line that holds an item in the format, whatever the draws. */
  lemma {:induction false} SampledIdsCount(lines: seq<string>, draws: nat -> nat -> nat, i: nat)
    requires i <= |lines|
    ensures |SampledIds(lines, draws, i)| == CountMatchingLines(lines, i)
    decreases |lines| - i
  {
    if i < |lines| {
      SampledIdsCount(lines, draws, i + 1);
      PickedCount(lines, draws, i);
    }
  }

  /** Every id drawn has the six-character shape. */
  lemma {:induction false} SampledIdsShape(lines: seq<string>, draws: nat -> nat -> nat, i: nat)
    requires i <= |lines|
    ensures forall id :: id in SampledIds(lines, draws, i) ==> IsStructId(id)
    decreases |lines| - i
  {
    if i < |lines| {
      SampledIdsShape(lines, draws, i + 1);
      PickedFromLine(lines, draws, i);
      var picked, rest := Picked(lines, draws, i), SampledIds(lines, draws, i + 1);
      assert SampledIds(lines, draws, i) == picked + rest;
    }
  }

  /** `getStruct` queues the ids drawn from the cluster lines in line order,
      skipping the lines without one, until 125 are queued; so it queues
      min(125, number of lines holding an id in the format) ids, whatever
      the draws, and every one has '_' at index 4 and a digit at index 5. */
  lemma FillQueuesFirstIds(lines: seq<string>, draws: nat -> nat -> nat)
    ensures Fill(lines, draws) == Take(SampledIds(lines, draws, 0), StructQueueSize)
    ensures |Fill(lines, draws)| == if CountMatchingLines(lines, 0) <= StructQueueSize
                                    then CountMatchingLines(lines, 0) else StructQueueSize
    ensures forall id :: id in Fill(lines, draws) ==> IsStructId(id)
  {
    FillFromTakes(lines, draws, 0, []);
    assert [] + SampledIds(lines, draws, 0) == SampledIds(lines, draws, 0);
    SampledIdsCount(lines, draws, 0);
    SampledIdsShape(lines, draws, 0);
    var ids := SampledIds(lines, draws, 0);
    forall id | id in Fill(lines, draws)
      ensures IsStructId(id)
    {
      var k :| 0 <= k < |Fill(lines, draws)| && Fill(lines, draws)[k] == id;
      assert ids[k] in ids;
    }
  }

  // ---------------------------------------------------------------------
  // CHAIN_FORMAT = '\|Chains? (.*?)\|' (line 13)
  // ---------------------------------------------------------------------

  /** The first '|' at or after `i`, provided no newline comes before it
      (`.` does not match a newline). */
  function BarFrom(s: string, i: nat): (j: Option<nat>)
    ensures j.Some? ==> i <= j.value < |s| && s[j.value] == '|'
    ensures j.Some? ==> forall k :: i <= k < j.value ==> s[k] != '|' && s[k] != '\n'
    decreases |s| - i
  {
    if i >= |s| || s[i] == '\n' then None
    else if s[i] == '|' then Some(i)
    else BarFrom(s, i + 1)
  }

  /** No newline in `s[i..k]`. */
  predicate NoNewlineBetween(s: string, i: nat, k: nat)
    requires k <= |s|
  {
    forall n :: i <= n < k ==> s[n] != '\n'
  }

  /** `s` holds `t` at position `p`. */
  predicate PrefixAt(s: string, p: nat, t: string) {
    p + |t| <= |s| && s[p..p + |t|] == t
  }

  /** `BarFrom` finds the first '|' reachable from `i` without crossing a
      newline, and fails exactly when every later '|' has a newline before
      it. */
  lemma {:induction false} BarFromIsFirstBar(s: string, i: nat)
    ensures BarFrom(s, i).Some? ==>
              var j := BarFrom(s, i).value;
              && i <= j < |s| && s[j] == '|' && NoNewlineBetween(s, i, j)
              && forall k :: i <= k < j ==> s[k] != '|'
    ensures BarFrom(s, i).None? <==>
              forall k :: i <= k < |s| && s[k] == '|' ==> !NoNewlineBetween(s, i, k)
    decreases |s| - i
  {
    if i < |s| && s[i] != '\n' && s[i] != '|' {
      BarFromIsFirstBar(s, i + 1);
      if BarFrom(s, i).None? {
        forall k | i <= k < |s| && s[k] == '|'
          ensures !NoNewlineBetween(s, i, k)
        {
          assert !NoNewlineBetween(s, i + 1, k);
        }
      }
    } else if i < |s| && s[i] == '\n' {
      forall k | i <= k < |s| && s[k] == '|'
        ensures !NoNewlineBetween(s, i, k)
      {
        assert s[i] == '\n';
      }
    }
  }

  /** Where the group starts when the pattern is tried at `p`: after
      "|Chains " or, failing the greedy `s?`, after "|Chain ". */
  function ChainsGroupStart(s: string, p: nat): (st: Option<nat>)
    ensures st.Some? ==> p + 7 <= st.value <= |s| && s[p..p + 6] == "|Chain" && s[st.value - 1] == ' '
  {
    if p + 7 <= |s| && s[p..p + 6] == "|Chain" then
      if p + 8 <= |s| && s[p + 6] == 's' && s[p + 7] == ' ' then Some(p + 8)
      else if s[p + 6] == ' ' then Some(p + 7)
      else None
    else None
  }

  /** Either prefix decides the start, and without both the pattern fails
      at `p`. */
  lemma ChainsGroupStartIsPrefix(s: string, p: nat)
    ensures ChainsGroupStart(s, p) == Some(p + 8) <==> PrefixAt(s, p, "|Chains ")
    ensures ChainsGroupStart(s, p) == Some(p + 7) <==> PrefixAt(s, p, "|Chain ")
    ensures ChainsGroupStart(s, p).None? <==> !PrefixAt(s, p, "|Chains ") && !PrefixAt(s, p, "|Chain ")
  {
    if p + 7 <= |s| {
      assert s[p..p + 7] == s[p..p + 6] + [s[p + 6]];
      assert s[p..p + 6] == s[p..p + 7][..6];
    }
    if p + 8 <= |s| {
      assert s[p..p + 8] == s[p..p + 7] + [s[p + 7]];
      assert s[p..p + 6] == s[p..p + 8][..6];
    }
  }

  /** The group of a match of CHAIN_FORMAT starting at `p`: the shortest
      text up to the next '|'. */
  function ChainsAt(s: string, p: nat): (g: Option<string>)
    ensures g.Some? ==> forall c :: c in g.value ==> c != '|' && c != '\n'
  {
    match ChainsGroupStart(s, p)
    case None => None
    case Some(st) =>
      match BarFrom(s, st)
      case None => None
      case Some(j) =>
        assert forall k :: 0 <= k < j - st ==> s[st..j][k] == s[st + k];
        Some(s[st..j])
  }

  /** The pattern matches at `p` exactly when `p` holds "|Chains " or
      "|Chain " and a '|' follows without a newline between; the group is
      then the text from the start up to the first such '|'. */
  lemma ChainsAtIsMatch(s: string, p: nat)
    ensures ChainsAt(s, p).Some? ==>
              var g := ChainsAt(s, p).value;
              var st := if PrefixAt(s, p, "|Chains ") then p + 8 else p + 7;
              && (PrefixAt(s, p, "|Chains ") || PrefixAt(s, p, "|Chain "))
              && st + |g| < |s| && s[st..st + |g|] == g && s[st + |g|] == '|'
              && forall c :: c in g ==> c != '|' && c != '\n'
    ensures ChainsAt(s, p).None? <==>
              || (!PrefixAt(s, p, "|Chains ") && !PrefixAt(s, p, "|Chain "))
              || var st := if PrefixAt(s, p, "|Chains ") then p + 8 else p + 7;
                 forall k :: st <= k < |s| && s[k] == '|' ==> !NoNewlineBetween(s, st, k)
  {
    var o := ChainsGroupStart(s, p);
    ChainsGroupStartIsPrefix(s, p);
    if o.Some? {
      BarFromIsFirstBar(s, o.value);
    }
  }

  /** The group at the leftmost position in `[p, n)` where `at` finds a
      match: how both `findall(...)[0]` and `search` pick their match. */
  function Leftmost(at: nat -> Option<string>, p: nat, n: nat): Option<string>
    decreases n - p
  {
    if p >= n then None
    else if at(p).Some? then at(p)
    else Leftmost(at, p + 1, n)
  }

  /** The search fails exactly when no position matches, and otherwise gives
      the group of the first position that does. */
  lemma {:induction false} LeftmostIsFirst(at: nat -> Option<string>, p: nat, n: nat)
    ensures Leftmost(at, p, n).None? <==> forall q :: p <= q < n ==> at(q).None?
    ensures Leftmost(at, p, n).Some? ==>
              exists q :: p <= q < n && at(q) == Leftmost(at, p, n) && forall q' :: p <= q' < q ==> at(q').None?
    decreases n - p
  {
    if p < n && at(p).None? {
      LeftmostIsFirst(at, p + 1, n);
      if Leftmost(at, p, n).Some? {
        var q :| p + 1 <= q < n && at(q) == Leftmost(at, p, n) && forall q' :: p + 1 <= q' < q ==> at(q').None?;
        assert forall q' :: p <= q' < q ==> at(q').None?;
      }
    }
  }

  /** The group of the leftmost match of CHAIN_FORMAT at or after `p`, which
      is `findall(s)[0]`; None when there is none (`[0]` then raises). */
  function ChainsSearch(s: string, p: nat): (g: Option<string>)
    ensures g.Some? ==> forall c :: c in g.value ==> c != '|' && c != '\n'
  {
    LeftmostIsFirst((q: nat) => ChainsAt(s, q), p, |s|);
    Leftmost((q: nat) => ChainsAt(s, q), p, |s|)
  }

  /** `findall(s)[0]` is the leftmost match: None exactly when the pattern
      matches nowhere, otherwise the group at the first position where it
      matches. */
  lemma ChainsSearchIsLeftmost(s: string, p: nat)
    ensures ChainsSearch(s, p).None? <==> forall q :: p <= q < |s| ==> ChainsAt(s, q).None?
    ensures ChainsSearch(s, p).Some? ==>
              exists q :: p <= q < |s| && ChainsAt(s, q) == ChainsSearch(s, p)
                          && forall q' :: p <= q' < q ==> ChainsAt(s, q').None?
  {
    var at := (q: nat) => ChainsAt(s, q);
    LeftmostIsFirst(at, p, |s|);
    assert forall q: nat :: at(q) == ChainsAt(s, q);
    if ChainsSearch(s, p).Some? {
      var q :| p <= q < |s| && at(q) == ChainsSearch(s, p) && forall q' :: p <= q' < q ==> at(q').None?;
      assert ChainsAt(s, q) == ChainsSearch(s, p);
    }
  }

  // ---------------------------------------------------------------------
  // AUTH_CHAIN_FORMAT = '\[auth (.+)\]' (line 14)
  // ---------------------------------------------------------------------

  /** The first newline at or after `i`, or the end of `s`. */
  function LineEnd(s: string, i: nat): (e: nat)
    requires i <= |s|
    ensures i <= e <= |s| && (e < |s| ==> s[e] == '\n')
    ensures forall k :: i <= k < e ==> s[k] != '\n'
    decreases |s| - i
  {
    if i == |s| || s[i] == '\n' then i else LineEnd(s, i + 1)
  }

  /** The last ']' in `s[lo..hi]`. */
  function LastClose(s: string, lo: nat, hi: nat): (j: Option<nat>)
    requires hi <= |s|
    ensures j.Some? ==> lo <= j.value < hi && s[j.value] == ']'
    ensures j.Some? ==> forall k :: j.value < k < hi ==> s[k] != ']'
    ensures j.None? ==> forall k :: lo <= k < hi ==> s[k] != ']'
    decreases hi
  {
    if hi <= lo then None
    else if s[hi - 1] == ']' then Some(hi - 1)
    else LastClose(s, lo, hi - 1)
  }

  /** The group of a match of AUTH_CHAIN_FORMAT starting at `p`: the greedy
      `.+` runs to the end of the line and gives back characters until a
      ']' follows, so the group ends at the last ']' of the line. The
      pattern matches at `p` exactly when `p` holds "[auth " and a ']'
      follows on the same line after at least one character. */
  function AuthAt(s: string, p: nat): (g: Option<string>)
    ensures g.Some? ==> |g.value| >= 1 && forall c :: c in g.value ==> c != '\n'
    ensures g.None? <==>
              !PrefixAt(s, p, "[auth ") || forall k :: p + 7 <= k < LineEnd(s, p + 6) ==> s[k] != ']'
    ensures g.Some? ==>
              var e := p + 6 + |g.value|;
              && PrefixAt(s, p, "[auth ")
              && e < LineEnd(s, p + 6) && s[p + 6..e] == g.value && s[e] == ']'
              && forall k :: e < k < LineEnd(s, p + 6) ==> s[k] != ']'
  {
    if p + 6 <= |s| && s[p..p + 6] == "[auth " then
      var st := p + 6;
      var e := LineEnd(s, st);
      match LastClose(s, st + 1, e)
      case None => None
      case Some(j) =>
        assert forall k :: 0 <= k < j - st ==> s[st..j][k] == s[st + k];
        Some(s[st..j])
    else None
  }

  /** `AUTH_CHAIN_FORMAT.search(s).group(1)`, None when nothing matches. */
  function AuthSearch(s: string, p: nat): (g: Option<string>)
    ensures g.Some? ==> |g.value| >= 1 && forall c :: c in g.value ==> c != '\n'
  {
    LeftmostIsFirst((q: nat) => AuthAt(s, q), p, |s|);
    Leftmost((q: nat) => AuthAt(s, q), p, |s|)
  }

  /** `search` finds nothing exactly when AUTH_CHAIN_FORMAT matches at no
      position. */
  lemma AuthSearchFails(s: string, p: nat)
    ensures AuthSearch(s, p).None? <==> forall q :: p <= q < |s| ==> AuthAt(s, q).None?
  {
    var at := (q: nat) => AuthAt(s, q);
    LeftmostIsFirst(at, p, |s|);
    assert forall q: nat :: at(q) == AuthAt(s, q);
  }

  /** Otherwise it finds the match at the leftmost position. */
  lemma AuthSearchIsLeftmost(s: string, p: nat)
    requires AuthSearch(s, p).Some?
    ensures exists q :: p <= q < |s| && AuthAt(s, q) == AuthSearch(s, p)
                        && forall q' :: p <= q' < q ==> AuthAt(s, q').None?
  {
    var at := (q: nat) => AuthAt(s, q);
    LeftmostIsFirst(at, p, |s|);
    assert forall q: nat :: at(q) == AuthAt(s, q);
    var q :| p <= q < |s| && at(q) == AuthSearch(s, p) && forall q' :: p <= q' < q ==> at(q').None?;
    assert AuthAt(s, q) == AuthSearch(s, p);
  }

  // ---------------------------------------------------------------------
  // getFASTA (lines 44-70)
  // ---------------------------------------------------------------------

  /** The FASTA header of `structId`: '>' then the id in characters 1..6. */
  predicate IsHeaderFor(line: string, structId: string) {
    |line| > 0 && line[0] == '>' && Slice(line, 1, 7) == structId
  }

  /** The chain `getFASTA` takes from the matching header: the first
      "|Chains ...|" section is split on ", " and the last entry is popped;
      its `[auth X]` part gives X, otherwise the entry itself is returned.
      A header without the section raises IndexError. */
  function HeaderChain(line: string): (r: Ret<string>)
    ensures r.RaisedIndexError? <==> ChainsSearch(line, 0).None?
    ensures !r.ReturnedFalse?
  {
    match ChainsSearch(line, 0)
    case None => RaisedIndexError
    case Some(g) =>
      var chainIds := SplitSep(g, ", ");
      var chainId := chainIds[|chainIds| - 1];
      match AuthSearch(chainId, 0)
      case Some(a) => Returned(a)
      case None => Returned(chainId)
  }

  /** The loop of `getFASTA` over the response lines: an empty line raises
      IndexError at `line[0]`, the first header of `structId` decides, and
      without one the result is False. */
  function FastaChain(lines: seq<string>, structId: string): (r: Ret<string>)
    decreases |lines|
  {
    if lines == [] then ReturnedFalse
    else if |lines[0]| == 0 then RaisedIndexError
    else if IsHeaderFor(lines[0], structId) then HeaderChain(lines[0])
    else FastaChain(lines[1..], structId)
  }

  /** `getFASTA` returns False exactly when no line is empty and none is the
      header of `structId`. */
  lemma {:induction false} FastaFalseIff(lines: seq<string>, structId: string)
    ensures FastaChain(lines, structId).ReturnedFalse? <==>
              forall i :: 0 <= i < |lines| ==> |lines[i]| > 0 && !IsHeaderFor(lines[i], structId)
    decreases |lines|
  {
    if lines != [] {
      FastaFalseIff(lines[1..], structId);
      assert forall i :: 1 <= i < |lines| ==> lines[i] == lines[1..][i - 1];
    }
  }

  /** The first line that is empty or the header of `structId` decides:
      an empty one raises, a header gives its chain. */
  lemma {:induction false} FastaFirstHeaderDecides(lines: seq<string>, structId: string, i: nat)
    requires i < |lines|
    requires forall j :: 0 <= j < i ==> |lines[j]| > 0 && !IsHeaderFor(lines[j], structId)
    ensures |lines[i]| == 0 ==> FastaChain(lines, structId) == RaisedIndexError
    ensures IsHeaderFor(lines[i], structId) ==> FastaChain(lines, structId) == HeaderChain(lines[i])
    decreases i
  {
    if i > 0 {
      assert forall j :: 0 <= j < i - 1 ==> lines[1..][j] == lines[j + 1];
      FastaFirstHeaderDecides(lines[1..], structId, i - 1);
    }
  }

  /** The chain taken from a header is the last ", " entry of its first
      chains section, or the `[auth X]` text inside that entry. */
  lemma HeaderChainIsLastEntry(line: string)
    requires ChainsSearch(line, 0).Some?
    ensures var entries := SplitSep(ChainsSearch(line, 0).value, ", ");
            var last := entries[|entries| - 1];
            && (AuthSearch(last, 0).None? ==> HeaderChain(line) == Returned(last))
            && (AuthSearch(last, 0).Some? ==> HeaderChain(line) == Returned(AuthSearch(last, 0).value))
            && Join(entries, ", ") == ChainsSearch(line, 0).value
  {
    var g := ChainsSearch(line, 0).value;
    var entries := SplitSep(g, ", ");
    var last := entries[|entries| - 1];
    assert HeaderChain(line) == if AuthSearch(last, 0).Some? then Returned(AuthSearch(last, 0).value) else Returned(last);
    SplitJoin(g, ", ");
  }

  // ---------------------------------------------------------------------
  // getPDB (lines 73-101)
  // ---------------------------------------------------------------------

  /** Whether the character at index 21 equals the chain id: a
      one-character string equals the chain id only when that is the same
      one character; False never does. */
  predicate ChainIs(c: char, chainId: Option<string>) {
    chainId == Some([c])
  }

  /** The record of an ATOM line: the atom name, residue name and x, y, z
      columns of the fixed-column layout (Python slices clamp short lines). */
  function Record(line: string): AtomRecord {
    AtomRecord(Slice(line, 12, 16), Slice(line, 17, 20), Slice(line, 30, 38),
               Slice(line, 38, 46), Slice(line, 46, 54))
  }

  /** On a full-width line the fields are columns 13-16, 18-20, 31-38,
      39-46 and 47-54 of the wwPDB ATOM record (counting from 1). */
  lemma RecordFollowsLayout(line: string)
    requires |line| >= 54
    ensures var r := Record(line);
            && |r.atomName| == 4 && |r.residueName| == 3
            && |r.x| == 8 && |r.y| == 8 && |r.z| == 8
            && (forall k :: 0 <= k < 4 ==> r.atomName[k] == line[12 + k])
            && (forall k :: 0 <= k < 3 ==> r.residueName[k] == line[17 + k])
            && (forall k :: 0 <= k < 8 ==> r.x[k] == line[30 + k] && r.y[k] == line[38 + k] && r.z[k] == line[46 + k])
  {
  }

  /** A line whose record `getPDB` appends. */
  predicate Emits(line: string, chainId: Option<string>) {
    StartsWith(line, "ATOM") && |line| > 21 && ChainIs(line[21], chainId) && Slice(line, 12, 16) in Backbone
  }

  /** A line that ends the chain once records exist: not an ATOM line, and
      its index-21 character is not the chain id. */
  predicate IsStop(line: string, chainId: Option<string>) {
    !StartsWith(line, "ATOM") && |line| > 21 && !ChainIs(line[21], chainId)
  }

  /** A line on which `line[21]` raises IndexError, given whether records
      exist yet (`and` reads `line[21]` of a non-ATOM line only then). */
  predicate Raises(line: string, started: bool) {
    |line| <= 21 && (StartsWith(line, "ATOM") || started)
  }

  /** The records of the lines before position `n`, in line order. */
  function Emitted(lines: seq<string>, chainId: Option<string>, n: nat): seq<AtomRecord>
    requires n <= |lines|
  {
    if n == 0 then []
    else Emitted(lines, chainId, n - 1) + (if Emits(lines[n - 1], chainId) then [Record(lines[n - 1])] else [])
  }

  /** The loop of `getPDB` from line `i` on with the records `seg` so far. */
  function ScanPdb(lines: seq<string>, chainId: Option<string>, i: nat, seg: seq<AtomRecord>): Ret<seq<AtomRecord>>
    requires i <= |lines|
    decreases |lines| - i
  {
    if i == |lines| then ReturnedFalse
    else
      var line := lines[i];
      if StartsWith(line, "ATOM") then
        if |line| <= 21 then RaisedIndexError
        else if ChainIs(line[21], chainId) && Slice(line, 12, 16) in Backbone then
          ScanPdb(lines, chainId, i + 1, seg + [Record(line)])
        else ScanPdb(lines, chainId, i + 1, seg)
      else if |seg| != 0 then
        if |line| <= 21 then RaisedIndexError
        else if !ChainIs(line[21], chainId) then Returned(seg)
        else ScanPdb(lines, chainId, i + 1, seg)
      else ScanPdb(lines, chainId, i + 1, seg)
  }

  /** `getPDB(struct_id, chain_id)` on the lines of the PDB download. */
  function PdbSegment(lines: seq<string>, chainId: Option<string>): Ret<seq<AtomRecord>> {
    ScanPdb(lines, chainId, 0, [])
  }

  /** Nothing stopped the loop before line `i`: no line raised and no stop
      line came once records existed. */
  ghost predicate QuietBefore(lines: seq<string>, chainId: Option<string>, i: nat)
    requires i <= |lines|
  {
    forall j :: 0 <= j < i ==>
      !Raises(lines[j], Emitted(lines, chainId, j) != [])
      && !(Emitted(lines, chainId, j) != [] && IsStop(lines[j], chainId))
  }

  /** From a quiet prefix the loop carries exactly the records of that
      prefix. */
  lemma {:induction false} ScanFromQuiet(lines: seq<string>, chainId: Option<string>, i: nat)
    requires i <= |lines| && QuietBefore(lines, chainId, i)
    ensures PdbSegment(lines, chainId) == ScanPdb(lines, chainId, i, Emitted(lines, chainId, i))
    decreases i
  {
    if i > 0 {
      var j := i - 1;
      assert QuietBefore(lines, chainId, j);
      ScanFromQuiet(lines, chainId, j);
      assert !Raises(lines[j], Emitted(lines, chainId, j) != []);
      assert !(Emitted(lines, chainId, j) != [] && IsStop(lines[j], chainId));
      ScanStep(lines, chainId, j);
    }
  }

  /** A quiet line moves the loop one line on with its record, if any. */
  lemma ScanStep(lines: seq<string>, chainId: Option<string>, j: nat)
    requires j < |lines|
    requires !Raises(lines[j], Emitted(lines, chainId, j) != [])
    requires !(Emitted(lines, chainId, j) != [] && IsStop(lines[j], chainId))
    ensures ScanPdb(lines, chainId, j, Emitted(lines, chainId, j))
            == ScanPdb(lines, chainId, j + 1, Emitted(lines, chainId, j + 1))
  {
    var line := lines[j];
    var seg := Emitted(lines, chainId, j);
    assert Emitted(lines, chainId, j + 1) == seg + (if Emits(line, chainId) then [Record(line)] else []);
    if StartsWith(line, "ATOM") {
      assert |line| > 21;
      if Emits(line, chainId) {
        assert ScanPdb(lines, chainId, j, seg) == ScanPdb(lines, chainId, j + 1, seg + [Record(line)]);
      } else {
        assert Emitted(lines, chainId, j + 1) == seg;
        assert ScanPdb(lines, chainId, j, seg) == ScanPdb(lines, chainId, j + 1, seg);
      }
    } else {
      assert Emitted(lines, chainId, j + 1) == seg;
    }
  }

  /** The stop rule: when the first event is a non-ATOM line whose
      index-21 character differs from the chain id, after at least one
      record, `getPDB` returns the records collected so far. */
  lemma PdbStopsAtFirstStopLine(lines: seq<string>, chainId: Option<string>, i: nat)
    requires i < |lines| && QuietBefore(lines, chainId, i)
    requires Emitted(lines, chainId, i) != [] && IsStop(lines[i], chainId)
    ensures PdbSegment(lines, chainId) == Returned(Emitted(lines, chainId, i))
  {
    ScanFromQuiet(lines, chainId, i);
  }

  /** When the lines run out before any stop, `getPDB` returns False, even
      if records were collected. */
  lemma PdbFalseWithoutStop(lines: seq<string>, chainId: Option<string>)
    requires QuietBefore(lines, chainId, |lines|)
    ensures PdbSegment(lines, chainId) == ReturnedFalse
  {
    ScanFromQuiet(lines, chainId, |lines|);
  }

  /** A short line that reaches `line[21]` raises IndexError. */
  lemma PdbRaisesOnShortLine(lines: seq<string>, chainId: Option<string>, i: nat)
    requires i < |lines| && QuietBefore(lines, chainId, i)
    requires Raises(lines[i], Emitted(lines, chainId, i) != [])
    ensures PdbSegment(lines, chainId) == RaisedIndexError
  {
    ScanFromQuiet(lines, chainId, i);
  }

  /** `getPDB` never returns an empty list: it hands back records only at
      a stop line, and only once it has some. */
  lemma {:induction false} ScanReturnsRecords(lines: seq<string>, chainId: Option<string>, i: nat, seg: seq<AtomRecord>)
    requires i <= |lines|
    requires ScanPdb(lines, chainId, i, seg).Returned?
    ensures |ScanPdb(lines, chainId, i, seg).value| > 0
    ensures |seg| <= |ScanPdb(lines, chainId, i, seg).value|
    decreases |lines| - i
  {
    var line := lines[i];
    if StartsWith(line, "ATOM") {
      if ChainIs(line[21], chainId) && Slice(line, 12, 16) in Backbone {
        ScanReturnsRecords(lines, chainId, i + 1, seg + [Record(line)]);
      } else {
        ScanReturnsRecords(lines, chainId, i + 1, seg);
      }
    } else if |seg| == 0 || ChainIs(line[21], chainId) {
      ScanReturnsRecords(lines, chainId, i + 1, seg);
    }
  }

  /** From a quiet line on, the lines stay quiet up to a first event: a
      line that raises, a stop line once records exist, or the end. */
  lemma {:induction false} FirstEvent(lines: seq<string>, chainId: Option<string>, i: nat) returns (j: nat)
    requires i <= |lines| && QuietBefore(lines, chainId, i)
    ensures i <= j <= |lines| && QuietBefore(lines, chainId, j)
    ensures j < |lines| ==>
              || Raises(lines[j], Emitted(lines, chainId, j) != [])
              || (Emitted(lines, chainId, j) != [] && IsStop(lines[j], chainId))
    decreases |lines| - i
  {
    if i == |lines| {
      return i;
    }
    var seg := Emitted(lines, chainId, i);
    if Raises(lines[i], seg != []) || (seg != [] && IsStop(lines[i], chainId)) {
      return i;
    }
    QuietExtends(lines, chainId, i);
    j := FirstEvent(lines, chainId, i + 1);
  }

  /** A quiet line keeps the prefix quiet. */
  lemma QuietExtends(lines: seq<string>, chainId: Option<string>, i: nat)
    requires i < |lines| && QuietBefore(lines, chainId, i)
    requires !Raises(lines[i], Emitted(lines, chainId, i) != [])
    requires !(Emitted(lines, chainId, i) != [] && IsStop(lines[i], chainId))
    ensures QuietBefore(lines, chainId, i + 1)
  {
  }

  /** Every result of `getPDB` has its cause among the three rules above. */
  lemma PdbOutcomeHasCause(lines: seq<string>, chainId: Option<string>)
    ensures var r := PdbSegment(lines, chainId);
            && (r.Returned? ==>
                  exists j :: 0 <= j < |lines| && QuietBefore(lines, chainId, j)
                              && Emitted(lines, chainId, j) != [] && IsStop(lines[j], chainId)
                              && r.value == Emitted(lines, chainId, j))
            && (r.RaisedIndexError? ==>
                  exists j :: 0 <= j < |lines| && QuietBefore(lines, chainId, j)
                              && Raises(lines[j], Emitted(lines, chainId, j) != []))
            && (r.ReturnedFalse? ==> QuietBefore(lines, chainId, |lines|))
  {
    assert Emitted(lines, chainId, 0) == [];
    var j := FirstEvent(lines, chainId, 0);
    ScanFromQuiet(lines, chainId, j);
    var seg := Emitted(lines, chainId, j);
    if j < |lines| {
      if Raises(lines[j], seg != []) {
        assert ScanPdb(lines, chainId, j, seg) == RaisedIndexError;
      } else {
        assert ScanPdb(lines, chainId, j, seg) == Returned(seg);
      }
    }
  }

  /** Every record `getPDB` returns is the record of a backbone ATOM line
      of the chain. */
  lemma {:induction false} EmittedRecordsAreBackbone(lines: seq<string>, chainId: Option<string>, n: nat)
    requires n <= |lines|
    ensures forall r :: r in Emitted(lines, chainId, n) ==>
              r.atomName in Backbone && exists j :: 0 <= j < n && Emits(lines[j], chainId) && r == Record(lines[j])
    decreases n
  {
    if n > 0 {
      EmittedRecordsAreBackbone(lines, chainId, n - 1);
    }
  }

  // ---------------------------------------------------------------------
  // getAtomData (lines 104-130)
  // ---------------------------------------------------------------------

  /** `getPDB(id, getFASTA(id))` for one queued id, on the two downloads.
      An IndexError in `getFASTA` propagates before `getPDB` runs. */
  function Segment(structId: string, fasta: string -> seq<string>, pdb: string -> seq<string>): Ret<seq<AtomRecord>> {
    match FastaChain(fasta(PdbId(structId)), structId)
    case RaisedIndexError => RaisedIndexError
    case ReturnedFalse => PdbSegment(pdb(PdbId(structId)), None)
    case Returned(c) => PdbSegment(pdb(PdbId(structId)), Some(c))
  }

  /** The result of `getPDB(id, getFASTA(id))` for every queued id, in
      queue order. */
  function Segments(queue: seq<string>, fasta: string -> seq<string>, pdb: string -> seq<string>)
    : (segs: seq<Ret<seq<AtomRecord>>>)
    ensures |segs| == |queue|
  {
    seq(|queue|, k requires 0 <= k < |queue| => Segment(queue[k], fasta, pdb))
  }

  /** A list `getPDB` hands back is never empty. */
  lemma SegmentsAreNonEmpty(queue: seq<string>, fasta: string -> seq<string>, pdb: string -> seq<string>)
    ensures forall k :: 0 <= k < |queue| && Segments(queue, fasta, pdb)[k].Returned? ==>
              |Segments(queue, fasta, pdb)[k].value| > 0
  {
    forall k | 0 <= k < |queue| && Segments(queue, fasta, pdb)[k].Returned?
      ensures |Segments(queue, fasta, pdb)[k].value| > 0
    {
      var id := queue[k];
      match FastaChain(fasta(PdbId(id)), id)
      case RaisedIndexError =>
      case ReturnedFalse => ScanReturnsRecords(pdb(PdbId(id)), None, 0, []);
      case Returned(c) => ScanReturnsRecords(pdb(PdbId(id)), Some(c), 0, []);
    }
  }

  /** What the loop of `getAtomData` adds from queue entry `i` on, given
      the segment of every entry: the segments appended, how many
      structures they came from, and whether an IndexError ended the loop. */
  datatype Gathered = Gathered(records: seq<AtomRecord>, count: nat, raised: bool)

  function Gather(segs: seq<Ret<seq<AtomRecord>>>, i: nat): (g: Gathered)
    requires i <= |segs|
    ensures g.count <= |segs| - i
    decreases |segs| - i
  {
    if i == |segs| then Gathered([], 0, false)
    else
      match segs[i]
      case RaisedIndexError => Gathered([], 0, true)
      case ReturnedFalse => Gather(segs, i + 1)
      case Returned(seg) =>
        var g := Gather(segs, i + 1);
        Gathered(seg + g.records, g.count + 1, g.raised)
  }

  /** The entries from `i` on whose `getPDB` result is a list. */
  function Included(segs: seq<Ret<seq<AtomRecord>>>, i: nat): nat
    requires i <= |segs|
    decreases |segs| - i
  {
    if i == |segs| then 0
    else (if segs[i].Returned? then 1 else 0) + Included(segs, i + 1)
  }

  /** Each included structure adds at least one record, so there are
      records exactly when some structure was included; without an
      IndexError the count is the number of ids whose `getPDB` gave a list. */
  lemma {:induction false} GatherCounts(segs: seq<Ret<seq<AtomRecord>>>, i: nat)
    requires i <= |segs|
    requires forall k :: 0 <= k < |segs| && segs[k].Returned? ==> |segs[k].value| > 0
    ensures Gather(segs, i).count <= |Gather(segs, i).records|
    ensures Gather(segs, i).records == [] <==> Gather(segs, i).count == 0
    ensures !Gather(segs, i).raised ==> Gather(segs, i).count == Included(segs, i)
    decreases |segs| - i
  {
    if i < |segs| {
      GatherCounts(segs, i + 1);
    }
  }

  /** The same, for the segments of a queue. */
  lemma GatherCountsOfQueue(queue: seq<string>, fasta: string -> seq<string>, pdb: string -> seq<string>)
    ensures var segs := Segments(queue, fasta, pdb);
            && Gather(segs, 0).count <= |Gather(segs, 0).records|
            && (Gather(segs, 0).records == [] <==> Gather(segs, 0).count == 0)
            && (!Gather(segs, 0).raised ==> Gather(segs, 0).count == Included(segs, 0))
  {
    SegmentsAreNonEmpty(queue, fasta, pdb);
    GatherCounts(Segments(queue, fasta, pdb), 0);
  }

  // ---------------------------------------------------------------------
  // The parser object
  // ---------------------------------------------------------------------

  class Parser {
    /** `self.structQueue`. */
    var structQueue: seq<string>
    /** `self.atomData`, the records of every structure gathered so far. */
    var atomData: seq<AtomRecord>

    constructor()
      ensures structQueue == [] && atomData == []
    {
      structQueue := [];
      atomData := [];
    }

    /** One line of the cluster file (lines 33-39): nothing for an empty
        line, otherwise `sampleWithConstraints` on a fresh list of its
        items. The list is new, so the shuffle changes nothing else. */
    static method SampleLine(line: string, draw: nat -> nat) returns (r: Option<string>)
      ensures r == Sampled(line, draw)
    {
      if line == [] {
        return None;
      }
      var structs := Words(line);
      var pool := new string[|structs|](k requires 0 <= k < |structs| => structs[k]);
      assert pool[..] == structs;
      r := SampleWithConstraints(pool, MatchesStructFormat, draw);
    }

    /** `getStruct()` on the lines of the cluster file, with `draws(i)` the
        random draws of the shuffle of line `i`. */
    method GetStruct(clusterLines: seq<string>, draws: nat -> nat -> nat)
      modifies this
      ensures structQueue == Fill(clusterLines, draws)
      ensures atomData == old(atomData)
    {
      structQueue := [];
      var i := 0;
      while i < |clusterLines|
        invariant 0 <= i <= |clusterLines|
        invariant |structQueue| <= StructQueueSize
        invariant FillFrom(clusterLines, draws, i, structQueue) == Fill(clusterLines, draws)
        invariant atomData == old(atomData)
      {
        var line := clusterLines[i];
        if |structQueue| == StructQueueSize {
          assert FillFrom(clusterLines, draws, i, structQueue) == structQueue;
          break;
        }
        var structId := SampleLine(line, draws(i));
        FillFromOneLine(clusterLines, draws, i, structQueue);
        if structId.Some? {
          assert Picked(clusterLines, draws, i) == [structId.value];
          structQueue := structQueue + [structId.value];
        } else {
          assert structQueue + Picked(clusterLines, draws, i) == structQueue;
        }
        i := i + 1;
      }
      assert i == |clusterLines| ==> FillFrom(clusterLines, draws, i, structQueue) == structQueue;
    }

    /** `getFASTA(struct_id)` on the FASTA download. */
    method GetFasta(structId: string, fasta: string -> seq<string>) returns (r: Ret<string>)
      ensures r == FastaChain(fasta(PdbId(structId)), structId)
    {
      var lines := fasta(PdbId(structId));
      var k := 0;
      while k < |lines|
        invariant 0 <= k <= |lines|
        invariant FastaChain(lines, structId) == FastaChain(lines[k..], structId)
      {
        var line := lines[k];
        assert lines[k..][1..] == lines[k + 1..];
        if |line| == 0 {
          return RaisedIndexError;
        }
        if line[0] != '>' {
          k := k + 1;
          continue;
        }
        if Slice(line, 1, 7) == structId {
          var section := ChainsSearch(line, 0);
          if section.None? {
            return RaisedIndexError;
          }
          var chainIds := SplitSep(section.value, ", ");
          var chainId := chainIds[|chainIds| - 1];
          var authChainId := AuthSearch(chainId, 0);
          if authChainId.Some? {
            return Returned(authChainId.value);
          }
          return Returned(chainId);
        }
        k := k + 1;
      }
      return ReturnedFalse;
    }

    /** `getPDB(struct_id, chain_id)` on the PDB download; `chainId` is None
        when `getFASTA` gave False. */
    method GetPdb(structId: string, chainId: Option<string>, pdb: string -> seq<string>)
      returns (r: Ret<seq<AtomRecord>>)
      ensures r == PdbSegment(pdb(PdbId(structId)), chainId)
    {
      var lines := pdb(PdbId(structId));
      var segAtomData: seq<AtomRecord> := [];
      var k := 0;
      while k < |lines|
        invariant 0 <= k <= |lines|
        invariant PdbSegment(lines, chainId) == ScanPdb(lines, chainId, k, segAtomData)
      {
        var line := lines[k];
        if StartsWith(line, "ATOM") {
          if |line| <= 21 {
            return RaisedIndexError;
          }
          if ChainIs(line[21], chainId) && Slice(line, 12, 16) in Backbone {
            segAtomData := segAtomData + [Record(line)];
          }
        } else if |segAtomData| != 0 {
          if |line| <= 21 {
            return RaisedIndexError;
          }
          if !ChainIs(line[21], chainId) {
            return Returned(segAtomData);
          }
        }
        k := k + 1;
      }
      return ReturnedFalse;
    }

    /** One pass of the loop of `getAtomData` (lines 113-114): the chain from
        `getFASTA`, whose IndexError propagates, then `getPDB` with it. */
    method GetSegment(structId: string, fasta: string -> seq<string>, pdb: string -> seq<string>)
      returns (seg: Ret<seq<AtomRecord>>)
      ensures seg == Segment(structId, fasta, pdb)
    {
      var chainId := GetFasta(structId, fasta);
      if chainId.RaisedIndexError? {
        return RaisedIndexError;
      }
      seg := GetPdb(structId, if chainId.Returned? then Some(chainId.value) else None, pdb);
    }

    /** `getAtomData()`: for each queued id in order, find its chain and cut
        its segment, and append every segment that is a list to `atomData`,
        which is never cleared. `cnt` counts those structures. An IndexError
        leaves the segments appended before it in place. */
    method GetAtomData(fasta: string -> seq<string>, pdb: string -> seq<string>)
      returns (frame: Ret<seq<AtomRecord>>, cnt: nat)
      modifies this
      ensures structQueue == old(structQueue)
      ensures var g := Gather(Segments(structQueue, fasta, pdb), 0);
              && atomData == old(atomData) + g.records
              && cnt == g.count
              && frame == (if g.raised then RaisedIndexError else Returned(atomData))
    {
      ghost var segs := Segments(structQueue, fasta, pdb);
      ghost var whole := Gather(segs, 0);
      ghost var before := atomData;
      cnt := 0;
      var i := 0;
      while i < |structQueue|
        invariant 0 <= i <= |structQueue|
        invariant structQueue == old(structQueue)
        invariant before + whole.records == atomData + Gather(segs, i).records
        invariant whole.count == cnt + Gather(segs, i).count
        invariant whole.raised == Gather(segs, i).raised
      {
        ghost var rest := Gather(segs, i + 1);
        var seg := GetSegment(structQueue[i], fasta, pdb);
        assert seg == segs[i];
        if seg.RaisedIndexError? {
          return RaisedIndexError, cnt;
        }
        if seg.Returned? {
          assert atomData + (seg.value + rest.records) == (atomData + seg.value) + rest.records;
          atomData := atomData + seg.value;
          cnt := cnt + 1;
        }
        i := i + 1;
      }
      return Returned(atomData), cnt;
    }

    /** `main()`: fill the queue, then gather the atom data. */
    method Run(clusterLines: seq<string>, draws: nat -> nat -> nat,
               fasta: string -> seq<string>, pdb: string -> seq<string>)
      returns (frame: Ret<seq<AtomRecord>>)
      modifies this
      ensures structQueue == Fill(clusterLines, draws)
      ensures var g := Gather(Segments(structQueue, fasta, pdb), 0);
              && atomData == old(atomData) + g.records
              && frame == (if g.raised then RaisedIndexError else Returned(atomData))
    {
      GetStruct(clusterLines, draws);
      var cnt;
      frame, cnt := GetAtomData(fasta, pdb);
    }
  }
}
