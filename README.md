# PDB-Protein-Analysis in Dafny

A model of the core of PDB-Protein-Analysis, with proofs about it. The pipeline has three stages:

1. It fills a queue of structure ids by drawing one id at random from each line of the RCSB cluster list.
2. For each id, it reads a chain id from the FASTA header and cuts that chain's backbone atoms (N, CA, C) out of the PDB file.
3. It walks a sliding window over the resulting atom table, computing the (phi, psi) backbone dihedral angles of each interior CA atom. It then splits the angle records into glycines, prolines and the rest.

The project has four modules.

- `PyRuntime` (`py_runtime.dfy`) holds the Python behaviour the code depends on:
  - `Ret` stands for a call's three outcomes: a value, the `False` sentinel, or a propagating `IndexError`.
  - Slicing clamps its bounds, as Python does.
  - `str.startswith` is modelled.
  - Both forms of `str.split` are modelled: whitespace `split()` and `split(sep)`.
- `Tools` (`tools.dfy`) holds `imports.py`:
  - `normVecCross` is the unit normal of the plane through three points. It is None where numpy would produce NaNs.
  - `sampleWithConstraints` is an in-place Fisher–Yates shuffle of an `array` followed by a linear search.
- `Ramachandran` (`ramachandran_analysis.dfy`) models the `Ramachandran_Analysis` class. The `Analysis` class has the fields `atomData`, `angleData` and `angleDf`.
  - `GetAngles` is the sliding-window loop.
  - `Plot` is the three-way split of `plot()`.
- `Parsing` (`pdb_parser.dfy`) models the `PDB_Parser` class. The `Parser` class has the fields `structQueue` and `atomData`.
  - `GetStruct`, `GetFasta`, `GetPdb` and `GetAtomData` are its four loops.
  - The three regular expressions (`STRUCT_FORMAT`, `CHAIN_FORMAT` and `AUTH_CHAIN_FORMAT`) are written out as functions.

Each loop is a `method` proved against a recursive function that specifies it, for example `GetAngles` against `SweepOver` and `GetPdb` against `ScanPdb`. The properties are lemmas about those functions.

Some behaviours are external and become parameters:

- The FASTA and PDB downloads are functions from the four-character PDB id to the lines of the response; the cluster list is a sequence of lines.
- The random draws of `random.shuffle` are a function `draw`. The swap partner of slot `i` is `draw(i) % (i + 1)`.
- numpy's `sqrt`, `arccos` and `pi` are fields of a `Numerics` value. Its laws are stated as a precondition (`Lawful`) and nothing else is assumed about them.

Arithmetic is over exact reals.

Some consequences of the code as written:

- **Sign of zero.** `np.sign` of a zero dot product is 0, so such an angle is 0 (`DihedralSignRule`). In particular, with exact arithmetic a flat trans window, where the two plane normals are opposite, gets phi = 0 and psi = 0 (`FlatTransPhiIsZero`, `FlatTransPsiIsZero`).
- **No clamping.** The cosine goes to `np.arccos` as it is. An out-of-range cosine would give NaN, but for unit normals it cannot occur (`UnitDotBounded`).
- **NaN instead of an error.** Collinear points give a NaN normal, and the NaN flows into the angle. No error is raised (`PhiRule`, `PsiRule`).
- **Range.** With exact arithmetic and an arccos that reaches pi only at −1, phi and psi lie strictly between −180 and 180 (`PhiRule`, `PsiRule`): a cosine of −1 forces the angle to 0.
- **No triplet check.** The window does not check the N, CA, C order of the rows:
  - `iloc[ca - 2]` wraps round to the last row for the second row.
  - A window whose `ca + 2` runs past the table raises `IndexError`. The records appended before it then remain.
  - The "3N atoms give N − 2 angle pairs" result is proved for tables in strict triplet order (`StrictChainAngles`).
- **Empty frames.** `pd.DataFrame.from_dict([])` has no columns. An empty atom table makes `getAngles` raise `KeyError` at the `atom_name` mask, and an angle frame without records makes `plot()` raise `KeyError` at `residue_name` (`Analysis.GetAngles`, `Analysis.Plot`).
- **Many chains in one table.** `getAtomData` concatenates the segments of every structure into one table, and `getAngles` treats that table as a single chain.

## Model

| member | source | states |
|---|---|---|
| PyRuntime.Slice | PDB_Parser.py:91-95 | a slice is never longer than the string or the upper bound; with bounds in range it has length j − i, with j past the end it has length len − i, and it is empty when i is past the end or j ≤ i; each character is the one at the shifted position |
| PyRuntime.StartsWith | PDB_Parser.py:88 | `line.startswith(prefix)`: the prefix fits in the line and its first characters are the prefix (used by `getPDB` for "ATOM") |
| PyRuntime.WordLenIsRun | PDB_Parser.py:35 | the first word of a line is non-empty when the line starts with a non-space, holds no space, and ends at a space or at the end |
| PyRuntime.Words | PDB_Parser.py:35 | `line.split()`: the maximal runs of non-whitespace characters, in order; its properties are `WordsHaveNoSpace` and `WordsKeepNonSpace` |
| PyRuntime.IsSpace | PDB_Parser.py:35 | the characters on which `line.split()` cuts: CPython's `str.isspace` set; `WordsHaveNoSpace` and `WordsKeepNonSpace` are stated over it |
| PyRuntime.WordsHaveNoSpace | PDB_Parser.py:35 | every item of `line.split()` is non-empty and holds no whitespace |
| PyRuntime.WordsKeepNonSpace | PDB_Parser.py:35 | concatenating the items of `line.split()` gives exactly the non-space characters of the line, in order |
| PyRuntime.Find | PDB_Parser.py:59 | the position found is the leftmost occurrence of the separator at or after the start; None means it occurs nowhere |
| PyRuntime.SplitSep | PDB_Parser.py:59-63 | `split(", ")` yields at least one piece, so `pop(-1)` on it cannot fail |
| PyRuntime.SplitSepAvoidsSep | PDB_Parser.py:59 | no piece of a split contains the separator |
| PyRuntime.SplitJoin | PDB_Parser.py:59 | joining the pieces of a split with the separator gives back the original string |
| Tools.Dot | Ramachandran_Analysis.py:63-68 | `np.dot` of two 3-vectors, the sum of the componentwise products; `UnitDotBounded` bounds it for unit normals |
| Tools.Cross | imports.py:54 | `np.cross` of two 3-vectors; `NormVecCrossIsUnitNormal` shows the scaled result is perpendicular to both edges with right-hand orientation |
| Tools.NormVecCross | imports.py:43-56 | the normal is undefined (numpy's NaN vector) exactly when the cross product of y − x and z − y is zero, i.e. the points are collinear or coincide |
| Tools.NormVecCrossIsUnitNormal | imports.py:54-56 | a defined normal has norm 1, is perpendicular to both y − x and z − y, and points along their cross product (right-hand orientation) |
| Tools.NormVecCrossReversed | imports.py:54-56 | reading the three points in reverse order negates the normal |
| Tools.NormVecCrossOfUnit | imports.py:54-56 | a cross product that already has norm 1 is returned unchanged |
| Tools.NormVecCrossExample | imports.py:43-56 | (0,0,0), (1,0,0), (0,1,0) have normal (0,0,1) |
| Tools.NormVecCrossExampleReversed | imports.py:43-56 | (0,1,0), (1,0,0), (0,0,0) have normal (0,0,−1) |
| Tools.Pick | imports.py:32 | the slot that slot i is swapped with is at most i |
| Tools.ShuffleDown | imports.py:32 | one top-down pass of `random.shuffle` from slot i to slot 1, each slot swapped with the slot `Pick` draws; its property is `ShuffleDownPermutes` |
| Tools.Shuffled | imports.py:32 | the pool after `random.shuffle`: CPython's top-down Fisher–Yates pass, slot i swapped with slot `draw(i) % (i + 1)`; its properties are `ShuffledIsPermutation` and `Shuffle` |
| Tools.ShuffleDownPermutes | imports.py:32 | each pass of swaps keeps the multiset of items |
| Tools.ShuffledIsPermutation | imports.py:32 | whatever the draws, the shuffled pool has the same length and the same items as the pool |
| Tools.Shuffle | imports.py:32 | `random.shuffle` leaves in the array exactly the Fisher–Yates shuffle of its old contents under the draws |
| Tools.FirstMatch | imports.py:35-40 | the `for item in samplePool` search: the first item the pattern accepts, None for `False`; its properties are `FirstMatchIsFirst` and `FirstMatchAt` |
| Tools.FirstMatchIsFirst | imports.py:35-40 | the search gives None exactly when no item matches; otherwise it gives an item that matches and that no earlier item precedes in matching |
| Tools.FirstMatchAt | imports.py:35-37 | when item k is the first that matches, the search returns it |
| Tools.SampleMatchesPool | imports.py:28-40 | the sample is False exactly when no item of the pool matches, whatever the draws; otherwise it is an item of the original pool that matches |
| Tools.SampleWithConstraints | imports.py:28-40 | the pool is shuffled in place, and the result is the first matching item of the shuffled pool, or None for `False` |
| Ramachandran.CaBelowAreCa | Ramachandran_Analysis.py:30 | every position picked below n is a row named ' CA ' |
| Ramachandran.CaBelowIncreasing | Ramachandran_Analysis.py:30 | the positions picked below n are in strictly increasing order, as the mask keeps the frame's order |
| Ramachandran.CaBelowComplete | Ramachandran_Analysis.py:30 | every row below n named ' CA ' is picked |
| Ramachandran.CaBelowSelects | Ramachandran_Analysis.py:30 | the positions picked below n are exactly the rows named ' CA ' there, in increasing order |
| Ramachandran.CaBelow | Ramachandran_Analysis.py:30 | the positions below n of the ' CA ' rows, in increasing order; every position is below n |
| Ramachandran.CaPositions | Ramachandran_Analysis.py:30 | the index labels of the rows named ' CA ', which are positions inside the table |
| Ramachandran.CaPositionsSelects | Ramachandran_Analysis.py:30 | the CA mask selects exactly the ' CA ' rows of the table, in increasing position |
| Ramachandran.Interior | Ramachandran_Analysis.py:30 | `[1:-1]` drops the first and last item: length max(n − 2, 0), item k being item k + 1 |
| Ramachandran.WindowsAreInnerCaRows | Ramachandran_Analysis.py:30 | the windows are the CA rows except the first and the last, in increasing position |
| Ramachandran.Windows | Ramachandran_Analysis.py:30 | `ca_indices`: the CA positions without the first and the last; its property is `WindowsAreInnerCaRows` |
| Ramachandran.ILoc | Ramachandran_Analysis.py:37-51 | `iloc` succeeds exactly for positions in [−len, len); a negative position reads the row counted from the end |
| Ramachandran.Sign | Ramachandran_Analysis.py:63-67 | `np.sign` is 0, 1 or −1 exactly when its argument is zero, positive or negative |
| Ramachandran.Arccos | Ramachandran_Analysis.py:71-72 | `np.arccos` is a number exactly on [−1, 1] and NaN elsewhere |
| Ramachandran.Degrees | Ramachandran_Analysis.py:71-72 | `np.degrees`: the angle times 180 / pi; its property is `DegreesBounds` |
| Ramachandran.DegreesBounds | Ramachandran_Analysis.py:71-72 | degrees of an angle in [0, pi] lie in [0, 180], and below 180 for an angle below pi; negation commutes with the conversion, and only 0 maps to 0 |
| Ramachandran.Dihedral | Ramachandran_Analysis.py:63-72 | an angle is a number only when both plane normals are defined |
| Ramachandran.Phi | Ramachandran_Analysis.py:36-71 | phi of a window: the signed angle between the normals of (C(i−1), N(i), CA(i)) and (N(i), CA(i), C(i)), signed by C(i) − CA(i); its properties are `PhiRule` and `FlatTransPhiIsZero` |
| Ramachandran.Psi | Ramachandran_Analysis.py:42-72 | psi of a window: the signed angle between the normals of (N(i), CA(i), C(i)) and (CA(i), C(i), N(i+1)), signed by N(i+1) − C(i); its properties are `PsiRule` and `FlatTransPsiIsZero` |
| Ramachandran.UnitDotBounded | Ramachandran_Analysis.py:64-68 | the cosine of two unit normals lies in [−1, 1], so the arccos is never NaN there |
| Ramachandran.DihedralSignRule | Ramachandran_Analysis.py:63-72 | for unit normals the angle exists and lies in [−180, 180]. Its size is the degrees of the arccos of their dot product. Its sign is the side of the first plane that the deciding vector points to, and it is 0 when that vector lies in the plane |
| Ramachandran.PhiRule | Ramachandran_Analysis.py:36-71 | phi is NaN exactly when C(i−1), N(i), CA(i) or N(i), CA(i), C(i) are collinear. Otherwise −180 < phi < 180, its size is the degrees of the arccos of the normals' dot product, its sign is the side of the first plane that C(i) − CA(i) points to (and conversely a positive or negative phi means that vector points to that side), and it is 0 when that vector lies in the plane |
| Ramachandran.PsiRule | Ramachandran_Analysis.py:42-72 | psi is NaN exactly when N(i), CA(i), C(i) or CA(i), C(i), N(i+1) are collinear. Otherwise −180 < psi < 180, its size is the degrees of the arccos of the normals' dot product, its sign is the side of the first plane that N(i+1) − C(i) points to (and conversely a positive or negative psi means that vector points to that side), and it is 0 when that vector lies in the plane |
| Ramachandran.FlatTransPhiIsZero | Ramachandran_Analysis.py:63-71 | when the two phi planes have opposite normals, phi is exactly 0 (not 180), because the deciding vector lies in both planes |
| Ramachandran.FlatTransPsiIsZero | Ramachandran_Analysis.py:63-72 | when the two psi planes have opposite normals, psi is exactly 0 (not 180), because N(i+1) − C(i) lies in both planes |
| Ramachandran.OpenRange | Ramachandran_Analysis.py:68-71 | for unit normals that are not opposite, the degrees of the arccos of their dot product lie in [0, 180) |
| Ramachandran.Window | Ramachandran_Analysis.py:36-78 | a window gives a record exactly when ca + 2 is inside the table (otherwise `iloc` raises IndexError), and the record carries the residue name of the CA row |
| Ramachandran.WindowAtoms | Ramachandran_Analysis.py:36-78 | for 2 ≤ ca and ca + 2 inside the table, the record is the CA row's residue name with phi of rows ca − 2 … ca + 1 and psi of rows ca − 1 … ca + 2 |
| Ramachandran.WindowWraps | Ramachandran_Analysis.py:36-78 | for the second row (ca = 1) C(i−1) is read from the last row of the table by `iloc[-1]`, N, CA, C and N(i+1) from rows 0 … 3 |
| Ramachandran.SweepOver | Ramachandran_Analysis.py:33-78 | the `for ca_idx in ca_indices` loop: the records of the windows in order, stopping at the first window that raises; never more records than windows |
| Ramachandran.Angles | Ramachandran_Analysis.py:30-78 | the sweep over the windows of line 30; its properties are `AnglesFollowWindows` and `StrictChainAngles` |
| Ramachandran.SweepOverKeepsWindows | Ramachandran_Analysis.py:33-78 | the k-th appended record is the record of the k-th window |
| Ramachandran.SweepOverStopsAtFirstRaise | Ramachandran_Analysis.py:33-78 | the loop completes exactly when no window raises, with one record per window. Otherwise it stops at the first window that raises, with that window's earlier records kept |
| Ramachandran.AnglesFollowWindows | Ramachandran_Analysis.py:30-78 | one record per window in window order, each with its CA row's residue name; the loop completes exactly when there is no window or the last window's ca + 2 is inside the table |
| Ramachandran.StrictCaBelow | Ramachandran_Analysis.py:30 | in a table of whole N, CA, C residues the CA positions are 1, 4, 7, … |
| Ramachandran.StrictChainWindows | Ramachandran_Analysis.py:30-51 | for n whole residues there are max(n − 2, 0) windows; the k-th is the CA at row 3k + 4, and its five rows lie inside the table |
| Ramachandran.StrictChainAngles | Ramachandran_Analysis.py:30-78 | for n whole residues `getAngles` completes with max(n − 2, 0) records. The k-th is the residue at row 3k + 4, with phi of C, N, CA, C at rows 3k + 2 … 3k + 5 and psi of N, CA, C, N at rows 3k + 3 … 3k + 6 (9 atoms give exactly one) |
| Ramachandran.StrictChainRecords | Ramachandran_Analysis.py:33-78 | the k-th record of such a chain is the record of the rows 3k + 2 … 3k + 6 |
| Ramachandran.Analysis.constructor | Ramachandran_Analysis.py:5-11 | the object holds the given table, an empty `AngleData` and no `angle_df` |
| Ramachandran.Analysis.GetAngles | Ramachandran_Analysis.py:25-87 | without a table nothing changes. On a table without rows, which has no columns, KeyError is raised before anything changes. Otherwise `AngleData` is cleared and then holds the sweep's records, and IndexError is reported exactly when the sweep did not complete. `angle_df` is set to the records only when the sweep completes |
| Ramachandran.Analysis.GetAnglesTwice | Ramachandran_Analysis.py:31 | (not a method of the source) running `getAngles` twice leaves the same `AngleData` as one run, because the list is cleared first |
| Ramachandran.Analysis.Plot | Ramachandran_Analysis.py:130-142 | with `angle_df` holding records, the groups are its three-way partition; an `angle_df` without records has no `residue_name` column and raises KeyError; an unset one leaves nothing to plot |
| Ramachandran.IsRest | Ramachandran_Analysis.py:140 | the mask `~isin(('GLY', 'PRO'))`: the residue is neither GLY nor PRO; `MasksAreExclusive` relates it to the other two |
| Ramachandran.IsGly | Ramachandran_Analysis.py:141 | the mask `== 'GLY'` |
| Ramachandran.IsPro | Ramachandran_Analysis.py:142 | the mask `== 'PRO'` |
| Ramachandran.MasksAreExclusive | Ramachandran_Analysis.py:140-142 | every record satisfies exactly one of the three masks |
| Ramachandran.Filter | Ramachandran_Analysis.py:140-142 | `angle_data.loc[mask]`: the records the mask accepts, in order; its properties are `FilterIsStable` and `FilterIsComplete` |
| Ramachandran.Partition | Ramachandran_Analysis.py:140-142 | the three groups of lines 140-142: neither GLY nor PRO, GLY, PRO; its properties are `PartitionCovers` and `PartitionSizes` |
| Ramachandran.PartitionCovers | Ramachandran_Analysis.py:140-142 | the three groups together hold every record exactly once (as multisets they add up to the input) |
| Ramachandran.PartitionSizes | Ramachandran_Analysis.py:140-142 | the sizes of the three groups add up to the number of records |
| Ramachandran.Kept | Ramachandran_Analysis.py:140-142 | the kept positions are increasing, in range and satisfy the mask, one per record of the group |
| Ramachandran.FilterIsStable | Ramachandran_Analysis.py:140-142 | each group keeps its records in input order: the k-th member is the input record at the k-th kept position |
| Ramachandran.FilterIsComplete | Ramachandran_Analysis.py:140-142 | every record the mask accepts is kept |
| Parsing.PdbId | PDB_Parser.py:49 | the PDB id has min(4, length) characters and is a prefix of the structure id |
| Parsing.MatchesStructFormat | PDB_Parser.py:12 | `STRUCT_FORMAT.match`: four non-newline characters, '_', a digit, then the end, where `$` also accepts one final newline; its property is `StructFormatOfWord` |
| Parsing.StructFormatOfWord | PDB_Parser.py:12 | on a whitespace-free item, `^.{4}_[0-9]$` matches exactly the six-character strings with '_' at index 4 and a digit at index 5 |
| Parsing.Sampled | PDB_Parser.py:33-39 | the id one cluster line yields: None for an empty line, else the first item of the shuffled `line.split()` in the format; its property is `SampledIsMatchingItem` |
| Parsing.SampledIsMatchingItem | PDB_Parser.py:35-39 | a line yields an id exactly when one of its items matches the format, whatever the draws, and the id is such an item |
| Parsing.Picked | PDB_Parser.py:36-41 | the guarded append: none or one id for a line, the one the sampler returns; its property is `PickedFromLine` |
| Parsing.PickedFromLine | PDB_Parser.py:33-41 | a line adds one id exactly when it holds an item in the format, whatever the draws, and that id has the six-character shape |
| Parsing.FillFrom | PDB_Parser.py:29-41 | the loop never shrinks the queue and never fills it beyond 125 |
| Parsing.Fill | PDB_Parser.py:21-41 | the queue `getStruct` builds: the loop from the first line with an empty queue; its property is `FillQueuesFirstIds` |
| Parsing.FillFromTakes | PDB_Parser.py:29-41 | the rest of the loop appends the ids drawn from the remaining lines until the queue holds 125 |
| Parsing.SampledIdsCount | PDB_Parser.py:29-41 | one id is drawn per line that holds an item in the format, whatever the draws |
| Parsing.SampledIdsShape | PDB_Parser.py:36-41 | every drawn id has '_' at index 4 and a digit at index 5 |
| Parsing.FillQueuesFirstIds | PDB_Parser.py:21-41 | the queue is the first 125 drawn ids in line order. Its length is min(125, number of lines holding an id), whatever the draws, and every id has the six-character shape |
| Parsing.Parser.constructor | PDB_Parser.py:10-16 | the queue and the atom data start empty |
| Parsing.Parser.GetStruct | PDB_Parser.py:21-41 | the queue becomes exactly the queue the loop specification builds from the cluster lines and draws; the atom data is untouched |
| Parsing.Parser.SampleLine | PDB_Parser.py:33-39 | one cluster line gives exactly `Sampled` of it: nothing for an empty line, otherwise `sampleWithConstraints` on a fresh list of its items |
| Parsing.BarFrom | PDB_Parser.py:13 | the vertical bar found is at or after the start, with neither a bar nor a newline before it |
| Parsing.BarFromIsFirstBar | PDB_Parser.py:13 | the bar found is the first one reachable without crossing a newline, and there is none exactly when every later bar has a newline before it |
| Parsing.ChainsGroupStart | PDB_Parser.py:13 | a match starts with a bar followed by "Chain", and its group starts after a space |
| Parsing.ChainsGroupStartIsPrefix | PDB_Parser.py:13 | the group starts at p + 8 exactly when a bar and "Chains " stand at p, at p + 7 exactly when a bar and "Chain " stand there, and the pattern fails at p exactly when neither does |
| Parsing.ChainsAt | PDB_Parser.py:13 | a chains group holds neither a vertical bar nor a newline |
| Parsing.ChainsAtIsMatch | PDB_Parser.py:13 | the pattern matches at a position exactly when a bar and "Chains " or "Chain " stand there and a further bar follows on the same line; the group is the text from the group start up to that first bar |
| Parsing.Leftmost | PDB_Parser.py:59-64 | the group at the leftmost matching position, which is how `findall(...)[0]` and `search` choose their match |
| Parsing.LeftmostIsFirst | PDB_Parser.py:59-64 | the leftmost search fails exactly when no position matches, and otherwise gives the group of the first position that does |
| Parsing.ChainsSearch | PDB_Parser.py:13 | the group `findall(...)[0]` gives holds neither a vertical bar nor a newline |
| Parsing.ChainsSearchIsLeftmost | PDB_Parser.py:59 | `findall(line)[0]` fails exactly when the pattern matches nowhere, and otherwise is the group at the leftmost matching position |
| Parsing.LineEnd | PDB_Parser.py:14 | the position found is the first newline at or after the start, or the end |
| Parsing.LastClose | PDB_Parser.py:14 | the position found is the last ']' in the range, and None means there is none |
| Parsing.AuthAt | PDB_Parser.py:14 | the pattern matches at a position exactly when "[auth " is there and a ']' follows on the same line after at least one character; the group is the non-empty text from after "[auth " up to the last ']' of the line |
| Parsing.AuthSearch | PDB_Parser.py:64 | a found auth group is non-empty and stays within one line |
| Parsing.AuthSearchFails | PDB_Parser.py:64-68 | `search` finds nothing exactly when the pattern matches at no position |
| Parsing.AuthSearchIsLeftmost | PDB_Parser.py:64-66 | `search` finds the match at the leftmost matching position |
| Parsing.HeaderChain | PDB_Parser.py:58-68 | a matching header raises IndexError exactly when it has no chains section, and it never gives False |
| Parsing.FastaChain | PDB_Parser.py:52-70 | the `getFASTA` loop: an empty line raises IndexError, the first header of the id gives its chain, and without one the result is False; its properties are `FastaFalseIff` and `FastaFirstHeaderDecides` |
| Parsing.HeaderChainIsLastEntry | PDB_Parser.py:59-68 | the chain is the last ", " entry of the first chains section, or the `[auth X]` text inside it; the entries re-joined give the section back |
| Parsing.FastaFalseIff | PDB_Parser.py:52-70 | `getFASTA` returns False exactly when no line is empty and none is the header of the structure id |
| Parsing.FastaFirstHeaderDecides | PDB_Parser.py:52-68 | the first line that is empty raises, and the first header of the id decides the chain |
| Parsing.IsHeaderFor | PDB_Parser.py:55-58 | a FASTA line is the header of the id when it starts with '>' and its characters 1 to 6 are the id |
| Parsing.Parser.GetFasta | PDB_Parser.py:44-70 | the loop returns what the `getFASTA` specification gives for the FASTA lines of the id |
| Parsing.Record | PDB_Parser.py:89-96 | the dict of an ATOM line: columns 13-16, 18-20, 31-38, 39-46 and 47-54, as clamped slices; its property is `RecordFollowsLayout` |
| Parsing.RecordFollowsLayout | PDB_Parser.py:89-96 | on a full-width line the fields are the fixed columns 13-16, 18-20, 31-38, 39-46 and 47-54 of the PDB ATOM record |
| Parsing.ChainIs | PDB_Parser.py:89 | the character at index 21 equals the chain id: true only for a one-character chain id equal to that character; `False` and longer ids never match |
| Parsing.Emits | PDB_Parser.py:88-96 | a line is collected when it is an ATOM line, long enough for column 22, of the chain and names a backbone atom |
| Parsing.IsStop | PDB_Parser.py:98-99 | a line ends the segment once records exist when it is not an ATOM line and its column 22 is not the chain |
| Parsing.Raises | PDB_Parser.py:88-98 | `line[21]` raises on a line of at most 21 characters that is an ATOM line, or any such line once records exist |
| Parsing.Emitted | PDB_Parser.py:86-96 | the records of the collected lines before a position, in line order; its property is `EmittedRecordsAreBackbone` |
| Parsing.ScanPdb | PDB_Parser.py:84-101 | the `getPDB` loop from a line on with the records so far: stop lines return the records, short lines raise IndexError, and running out of lines gives False; its properties are the `Pdb…` and `Scan…` lemmas |
| Parsing.PdbSegment | PDB_Parser.py:73-101 | `getPDB`: the loop from the first line with no records |
| Parsing.ScanFromQuiet | PDB_Parser.py:86-101 | after lines that neither raised nor stopped, the loop carries exactly the records of those lines |
| Parsing.ScanStep | PDB_Parser.py:86-99 | a line that neither raises nor stops moves the loop on by one line, with its record if it has one |
| Parsing.PdbStopsAtFirstStopLine | PDB_Parser.py:98-99 | at the first non-ATOM line whose column 22 is not the chain, once records exist, `getPDB` returns the records so far |
| Parsing.PdbFalseWithoutStop | PDB_Parser.py:86-101 | when the lines run out before any stop, `getPDB` returns False even if records were collected |
| Parsing.PdbRaisesOnShortLine | PDB_Parser.py:89-98 | a line shorter than 22 characters raises IndexError when it is an ATOM line, or any line once records exist |
| Parsing.ScanReturnsRecords | PDB_Parser.py:84-101 | a list that `getPDB` returns is never empty and extends the records collected so far |
| Parsing.EmittedRecordsAreBackbone | PDB_Parser.py:88-96 | every record collected comes from a backbone ATOM line of the chain and names a backbone atom |
| Parsing.FirstEvent | PDB_Parser.py:86-101 | from a quiet line on, the lines stay quiet up to a first line that raises, a first stop line once records exist, or the end |
| Parsing.PdbOutcomeHasCause | PDB_Parser.py:86-101 | every result of `getPDB` has its cause: a list is the records before the first stop line, IndexError comes from a first short line that raises, and False means no line raised or stopped |
| Parsing.Parser.GetPdb | PDB_Parser.py:73-101 | the loop returns what the `getPDB` specification gives for the PDB lines of the id and the chain |
| Parsing.Parser.GetSegment | PDB_Parser.py:113-114 | an IndexError in `getFASTA` propagates; otherwise `getPDB` runs with its chain (None standing for `False`) |
| Parsing.Segment | PDB_Parser.py:113-114 | `getPDB(struct_id, getFASTA(struct_id))` as a value, with the IndexError of `getFASTA` propagating; its properties are `SegmentsAreNonEmpty` and `GatherCounts` |
| Parsing.Segments | PDB_Parser.py:112-114 | there is one segment result per queued id |
| Parsing.SegmentsAreNonEmpty | PDB_Parser.py:113-116 | every list that a queued id yields is non-empty, so `if seg_atomData` keeps exactly the lists |
| Parsing.Gather | PDB_Parser.py:111-120 | no more structures are counted than there are queued ids |
| Parsing.GatherCounts | PDB_Parser.py:111-120 | there are records exactly when some structure was included, at least one per structure. Without an IndexError, `cnt` is the number of ids whose `getPDB` gave a list |
| Parsing.GatherCountsOfQueue | PDB_Parser.py:111-128 | the same, for the segments of the actual queue |
| Parsing.Parser.GetAtomData | PDB_Parser.py:104-130 | the queue is kept and the gathered segments are appended to `atomData`, which is never cleared. `cnt` counts the included structures. An IndexError ends the call, with the earlier segments kept |
| Parsing.Parser.Run | PDB_Parser.py:133-136 | `main()` queues the ids `getStruct` draws, then appends the atom data `getAtomData` gathers for them |

## Left out

- Network access is not modelled: `requests.get`, streaming and UTF-8 decoding. The responses are parameters: the cluster lines, and a function from PDB id to the FASTA lines and to the PDB lines.
- The timestamped default file paths (`time.time()`) and CSV writing (`save_to_csv`, `to_csv`) are I/O and are left out.
- Reading the angle table back from a CSV file (`plot(angle_filepath)`) is left out for the same reason.
- Plotting is left out: `subplot` and the seaborn/matplotlib calls in `plot` only render the three groups the model computes.
- `print` output and the `log_method` timing decorator are left out, because they do not affect any result.
- Floating point is modelled by exact reals. Rounding, `astype(float)` parsing of the coordinate text, and the NaN that would come from rounding pushing a cosine beyond ±1 are not captured.
- numpy's `sqrt`, `arccos` and `pi` are parameters that satisfy stated laws. They are not computed.
- The pandas table is modelled as a sequence of rows with the default index, whose labels are the positions. This is what `pd.DataFrame.from_dict` yields for a non-empty list, so `index` equals `iloc` positions. `from_dict([])` yields a frame with no columns; the model writes it as the empty sequence, and reading a column of it is a `KeyError`. Other indexes are not modelled.
- `Ramachandran.Analysis.GetAngles`: does not model the `if self.AtomData is None` test on a DataFrame passed in some other form. A missing table is `None`, any table is a row sequence, and the empty sequence stands for the column-less frame of `from_dict([])`, on which the `atom_name` mask raises `KeyError`.
- `Ramachandran.Analysis.Plot`: when `angle_df` is unset, the source prints a message and then fails on the unbound `angle_data`. The model returns `UnboundAngleData` for it rather than modelling Python's `UnboundLocalError`.
- `Parsing.Parser.GetFasta`: the inner `while len(chain_ids) != 0` loop always returns on its first pass, because `split` never yields an empty list (`PyRuntime.SplitSep`). It is therefore modelled as taking the last entry, without a loop.
- `random.shuffle` is modelled by CPython's Fisher–Yates pass driven by a draw function. The distribution of the random generator is not modelled.
- The regular expressions are modelled only for the three patterns the class uses, on Python's `re` semantics for them. There is no general regex engine.
- The `__main__.py` wiring, which constructs both objects and passes the atom table from one to the other, is not part of this model.
