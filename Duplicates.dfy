/**
 * `find_near_duplicates` (find_duplicate_wording.py:232-302): the pairs of
 * blocks whose token sets have a Jaccard score of at least the threshold,
 * found either by comparing every pair or by comparing only the blocks that
 * share a SimHash band, then ranked best first and capped.
 *
 * A match names its blocks by their indices in `blocks`; the source's
 * `(A, B, score)` is `(blocks[m.first], blocks[m.second], m.score)`.
 */
module Duplicates {
  import opened Wrappers
  import opened Words
  import opened Fingerprint
  import opened Blocks
  import opened Ranking

  /** The most entries of one bucket that are compared with each other. */
  const BucketCap := 300

  /** `jaccard(set(A.tokens_set), set(B.tokens_set))`. */
  function Score(blocks: seq<Block>, a: nat, b: nat): real
    requires a < |blocks| && b < |blocks|
  {
    Jaccard(blocks[a].tokensSet, blocks[b].tokensSet)
  }

  /** What every reported match satisfies: two different blocks in index
      order, their true score, at least the threshold, and different files
      unless `same_file` is set. */
  predicate ValidMatch(blocks: seq<Block>, m: Match, threshold: real, sameFile: bool) {
    && m.first < m.second < |blocks|
    && m.score == Score(blocks, m.first, m.second)
    && m.score >= threshold
    && (sameFile || blocks[m.first].filePath != blocks[m.second].filePath)
  }

  function PairOf(m: Match): (nat, nat) {
    (m.first, m.second)
  }

  /** No pair of blocks is reported twice. */
  predicate PairsDistinct(s: seq<Match>) {
    forall i, j :: 0 <= i < j < |s| ==> PairOf(s[i]) != PairOf(s[j])
  }

  /** The comparison of blocks `a` and `b` shared by both modes: the
      same-file skip, the score, and the threshold test. */
  function Compare(blocks: seq<Block>, a: nat, b: nat, threshold: real, sameFile: bool): (r: seq<Match>)
    requires a < |blocks| && b < |blocks|
    ensures r == [] || r == [Match(a, b, Score(blocks, a, b))]
    ensures a < b ==> (r != [] <==> ValidMatch(blocks, Match(a, b, Score(blocks, a, b)), threshold, sameFile))
  {
    if !sameFile && blocks[a].filePath == blocks[b].filePath then []
    else
      var score := Score(blocks, a, b);
      if score >= threshold then [Match(a, b, score)] else []
  }

  // ---------------------------------------------------------------------
  // Brute force mode (find_duplicate_wording.py:251-267)
  // ---------------------------------------------------------------------

  /** A comparison of two block indices: no match, or one match of that
      pair. */
  type Comparison = (nat, nat) -> seq<Match>

  /** `Compare` on `blocks`; an index past the end finds nothing. */
  function Comparer(blocks: seq<Block>, threshold: real, sameFile: bool): Comparison {
    (a: nat, b: nat) => if a < |blocks| && b < |blocks| then Compare(blocks, a, b, threshold, sameFile) else []
  }

  /** `cmp(a, b)` finds at most one match, and that one pairs `a` with `b`. */
  ghost predicate FindsPair(cmp: Comparison) {
    forall a, b :: |cmp(a, b)| <= 1 && forall x :: x in cmp(a, b) ==> x.first == a && x.second == b
  }

  lemma {:induction false} ComparerFindsPair(blocks: seq<Block>, threshold: real, sameFile: bool)
    ensures FindsPair(Comparer(blocks, threshold, sameFile))
  {
  }

  /** A match `Comparer` finds is exactly a valid match. */
  lemma {:induction false} ComparerValid(blocks: seq<Block>, threshold: real, sameFile: bool, x: Match)
    requires x.first < x.second
    ensures x in Comparer(blocks, threshold, sameFile)(x.first, x.second) <==> ValidMatch(blocks, x, threshold, sameFile)
  {
  }

  /** The matches of row `i`: block `i` against blocks `i+1 .. m-1`. */
  function BruteRow(cmp: Comparison, i: nat, m: nat): seq<Match> {
    if m <= i + 1 then []
    else BruteRow(cmp, i, m - 1) + cmp(i, m - 1)
  }

  /** The rows of brute force mode over `n` blocks. */
  function RowsOf(cmp: Comparison, n: nat): nat -> seq<Match> {
    (i: nat) => BruteRow(cmp, i, n)
  }

  /** The matches of rows `0 .. k-1`, row after row. */
  function BruteRows(row: nat -> seq<Match>, k: nat): seq<Match> {
    if k == 0 then []
    else BruteRows(row, k - 1) + row(k - 1)
  }

  /** `results` of brute force mode before sorting. */
  function BruteCandidates(blocks: seq<Block>, threshold: real, sameFile: bool): seq<Match> {
    BruteRows(RowsOf(Comparer(blocks, threshold, sameFile), |blocks|), |blocks|)
  }

  /** Brute force mode: every pair `i < j` is compared. */
  method BruteForce(blocks: seq<Block>, threshold: real, maxPairs: int, sameFile: bool) returns (out: seq<Match>)
    ensures out == Rank(BruteCandidates(blocks, threshold, sameFile), maxPairs)
  {
    var results: seq<Match> := [];
    var n := |blocks|;
    for i := 0 to n
      invariant results == BruteRows(RowsOf(Comparer(blocks, threshold, sameFile), n), i)
    {
      results := CompareRow(blocks, i, results, threshold, sameFile);
    }
    out := Rank(results, maxPairs);
  }

  /** The inner loop of brute force mode: block `i` against every later
      block. */
  method CompareRow(blocks: seq<Block>, i: nat, results: seq<Match>, threshold: real, sameFile: bool)
    returns (newResults: seq<Match>)
    requires i < |blocks|
    ensures newResults == results + BruteRow(Comparer(blocks, threshold, sameFile), i, |blocks|)
  {
    newResults := results;
    var a := blocks[i];
    ghost var cmp := Comparer(blocks, threshold, sameFile);
    for j := i + 1 to |blocks|
      invariant newResults == results + BruteRow(cmp, i, j)
    {
      var b := blocks[j];
      ghost var found := Compare(blocks, i, j, threshold, sameFile);
      assert BruteRow(cmp, i, j + 1) == BruteRow(cmp, i, j) + found;
      if !sameFile && a.filePath == b.filePath {
        assert found == [];
        continue;
      }
      var score := Jaccard(a.tokensSet, b.tokensSet);
      if score >= threshold {
        assert found == [Match(i, j, score)];
        newResults := newResults + [Match(i, j, score)];
      } else {
        assert found == [];
      }
    }
  }

  /** Row `i` holds exactly what `cmp` finds for block `i` and a later
      block before `m`. */
  lemma {:induction false} BruteRowHas(cmp: Comparison, i: nat, m: nat, x: Match)
    requires FindsPair(cmp)
    ensures x in BruteRow(cmp, i, m) <==> x.first == i && i < x.second < m && x in cmp(i, x.second)
  {
    if m > i + 1 {
      BruteRowHas(cmp, i, m - 1, x);
    }
  }

  /** Row `i` is in increasing pair order. */
  lemma {:induction false} BruteRowOrdered(cmp: Comparison, i: nat, m: nat)
    requires FindsPair(cmp)
    ensures PairsAscending(BruteRow(cmp, i, m))
  {
    if m > i + 1 {
      var prev := BruteRow(cmp, i, m - 1);
      var c := cmp(i, m - 1);
      BruteRowOrdered(cmp, i, m - 1);
      if prev != [] && c != [] {
        BruteRowHas(cmp, i, m - 1, prev[|prev| - 1]);
        assert c[0] in c;
      }
      AscendingAppend(prev, c);
    }
  }

  /** Every match of row `i` has `i` as its first block. */
  ghost predicate RowsKeepFirst(row: nat -> seq<Match>) {
    forall i, x :: x in row(i) ==> x.first == i
  }

  /** Every row is in increasing pair order. */
  ghost predicate RowsAscending(row: nat -> seq<Match>) {
    forall i :: PairsAscending(row(i))
  }

  lemma {:induction false} RowsOfShape(cmp: Comparison, n: nat)
    requires FindsPair(cmp)
    ensures RowsKeepFirst(RowsOf(cmp, n)) && RowsAscending(RowsOf(cmp, n))
  {
    forall i, x | x in RowsOf(cmp, n)(i)
      ensures x.first == i
    {
      BruteRowHas(cmp, i, n, x);
    }
    forall i
      ensures PairsAscending(RowsOf(cmp, n)(i))
    {
      BruteRowOrdered(cmp, i, n);
    }
  }

  /** Rows `0 .. k-1` hold exactly the matches of the rows before `k`. */
  lemma {:induction false} BruteRowsHas(row: nat -> seq<Match>, k: nat, x: Match)
    requires RowsKeepFirst(row)
    ensures x in BruteRows(row, k) <==> x.first < k && x in row(x.first)
  {
    if k > 0 {
      BruteRowsHas(row, k - 1, x);
    }
  }

  /** Rows `0 .. k-1` are in increasing pair order. */
  lemma {:induction false} BruteRowsOrdered(row: nat -> seq<Match>, k: nat)
    requires RowsKeepFirst(row) && RowsAscending(row)
    ensures PairsAscending(BruteRows(row, k))
  {
    if k > 0 {
      var prev := BruteRows(row, k - 1);
      var last := row(k - 1);
      BruteRowsOrdered(row, k - 1);
      if prev != [] && last != [] {
        BruteRowsHas(row, k - 1, prev[|prev| - 1]);
        assert last[0] in last;
      }
      AscendingAppend(prev, last);
    }
  }

  /** Pair order: by first block, then by second. */
  predicate PairBefore(x: Match, y: Match) {
    x.first < y.first || (x.first == y.first && x.second < y.second)
  }

  /** Each match is before the next in pair order. */
  ghost predicate PairsAscending(s: seq<Match>) {
    forall p, q :: 0 <= p < q < |s| && q == p + 1 ==> PairBefore(s[p], s[q])
  }

  lemma {:induction false} AscendingAppend(a: seq<Match>, b: seq<Match>)
    requires PairsAscending(a) && PairsAscending(b)
    requires a != [] && b != [] ==> PairBefore(a[|a| - 1], b[0])
    ensures PairsAscending(a + b)
  {
    forall p, q | 0 <= p < q < |a + b| && q == p + 1
      ensures PairBefore((a + b)[p], (a + b)[q])
    {
      if q < |a| {
        assert (a + b)[p] == a[p] && (a + b)[q] == a[q];
      } else if q == |a| {
        assert (a + b)[p] == a[|a| - 1] && (a + b)[q] == b[0];
      } else {
        assert (a + b)[p] == b[p - |a|] && (a + b)[q] == b[q - |a|];
      }
    }
  }

  /** Ascending pairs are distinct. */
  lemma {:induction false} AscendingDistinct(s: seq<Match>)
    requires PairsAscending(s)
    ensures PairsDistinct(s)
  {
    forall i, j | 0 <= i < j < |s|
      ensures PairOf(s[i]) != PairOf(s[j])
    {
      AscendingChain(s, i, j);
    }
  }

  lemma {:induction false} AscendingChain(s: seq<Match>, i: nat, j: nat)
    requires PairsAscending(s)
    requires i < j < |s|
    ensures PairBefore(s[i], s[j])
    decreases j - i
  {
    if i + 1 < j {
      AscendingChain(s, i + 1, j);
      assert PairBefore(s[i], s[i + 1]);
    }
  }

  /** Brute force finds every valid match and nothing else, each once. */
  lemma {:induction false} BruteForceExact(blocks: seq<Block>, threshold: real, sameFile: bool)
    ensures forall x :: x in BruteCandidates(blocks, threshold, sameFile) <==> ValidMatch(blocks, x, threshold, sameFile)
    ensures PairsDistinct(BruteCandidates(blocks, threshold, sameFile))
  {
    var cmp := Comparer(blocks, threshold, sameFile);
    var row := RowsOf(cmp, |blocks|);
    ComparerFindsPair(blocks, threshold, sameFile);
    RowsOfShape(cmp, |blocks|);
    forall x
      ensures x in BruteCandidates(blocks, threshold, sameFile) <==> ValidMatch(blocks, x, threshold, sameFile)
    {
      BruteRowsHas(row, |blocks|, x);
      BruteRowHas(cmp, x.first, |blocks|, x);
      if x.first < x.second {
        ComparerValid(blocks, threshold, sameFile, x);
      }
    }
    BruteRowsOrdered(row, |blocks|);
    AscendingDistinct(BruteCandidates(blocks, threshold, sameFile));
  }

  /** Two lists without repeated pairs and without a pair in common make one
      without repeated pairs. */
  lemma {:induction false} DistinctAppend(a: seq<Match>, b: seq<Match>)
    requires PairsDistinct(a) && PairsDistinct(b)
    requires forall x, y :: x in a && y in b ==> PairOf(x) != PairOf(y)
    ensures PairsDistinct(a + b)
  {
    forall i, j | 0 <= i < j < |a + b|
      ensures PairOf((a + b)[i]) != PairOf((a + b)[j])
    {
      if j < |a| {
      } else if i < |a| {
        assert (a + b)[i] in a && (a + b)[j] in b;
      } else {
        assert (a + b)[i] == b[i - |a|] && (a + b)[j] == b[j - |a|];
      }
    }
  }

  // ---------------------------------------------------------------------
  // Band buckets (find_duplicate_wording.py:270-273)
  // ---------------------------------------------------------------------

  /** The values of `bands` for which `band_buckets` returns. */
  predicate ValidBands(bands: int) {
    bands > 0 && 64 % bands == 0
  }

  /** The bucket keys of a fingerprint; none when `band_buckets` raises. */
  function KeysOf(h: int, bands: int): (keys: seq<BandKey>)
    ensures ValidBands(bands) ==> |keys| == bands
    ensures Distinct(keys)
  {
    match BandBuckets(h, bands)
    case Success(ks) => ks
    case Failure(_) => []
  }

  /** No key occurs twice. */
  predicate Distinct(keys: seq<BandKey>) {
    forall p, q :: 0 <= p < q < |keys| ==> keys[p] != keys[q]
  }

  /** The keys of every block, block by block. */
  function BlockKeys(blocks: seq<Block>, bands: int): (r: seq<seq<BandKey>>)
    ensures |r| == |blocks|
    ensures forall i :: 0 <= i < |r| ==> Distinct(r[i])
  {
    seq(|blocks|, i requires 0 <= i < |blocks| => KeysOf(blocks[i].simhash, bands))
  }

  /** The `buckets` dictionary: its keys in insertion order (the order in
      which `buckets.values()` yields them) and the block indices per key. */
  datatype Buckets = Buckets(order: seq<BandKey>, members: map<BandKey, seq<nat>>)

  /** Strictly increasing indices. */
  predicate Ascending(idxs: seq<nat>) {
    forall p, q :: 0 <= p < q < |idxs| ==> idxs[p] < idxs[q]
  }

  predicate InRange(idxs: seq<nat>, n: nat) {
    forall x :: x in idxs ==> x < n
  }

  /** The order lists exactly the keys of the dictionary, and every bucket
      holds increasing indices below `n`. */
  predicate WellBucketed(bk: Buckets, n: nat) {
    && (forall key :: key in bk.order ==> key in bk.members)
    && (forall key :: key in bk.members ==> key in bk.order)
    && (forall key :: key in bk.members ==> InRange(bk.members[key], n) && Ascending(bk.members[key]))
  }

  /** `for key in keys: buckets[key].append(i)` on a `defaultdict(list)`. */
  function AddKeys(bk: Buckets, keys: seq<BandKey>, i: nat): Buckets {
    if keys == [] then bk
    else
      var prev := AddKeys(bk, keys[..|keys| - 1], i);
      var key := keys[|keys| - 1];
      if key in prev.members then Buckets(prev.order, prev.members[key := prev.members[key] + [i]])
      else Buckets(prev.order + [key], prev.members[key := [i]])
  }

  /** What block `i` leaves in the bucket of `key`. */
  function AfterAdd(bk: Buckets, keys: seq<BandKey>, i: nat, key: BandKey): seq<nat> {
    (if key in bk.members then bk.members[key] else []) + (if key in keys then [i] else [])
  }

  /** Adding the distinct keys of block `i` appends `i` to exactly their
      buckets, creating (and ordering) the buckets that are new. */
  lemma {:induction false} AddKeysEffect(bk: Buckets, keys: seq<BandKey>, i: nat, key: BandKey)
    requires Distinct(keys)
    requires forall k :: k in bk.order <==> k in bk.members
    ensures key in AddKeys(bk, keys, i).members <==> key in bk.members || key in keys
    ensures key in AddKeys(bk, keys, i).order <==> key in AddKeys(bk, keys, i).members
    ensures key in AddKeys(bk, keys, i).members ==> AddKeys(bk, keys, i).members[key] == AfterAdd(bk, keys, i, key)
  {
    if keys != [] {
      var init := keys[..|keys| - 1];
      var last := keys[|keys| - 1];
      assert keys == init + [last];
      assert Distinct(init) by {
        forall p, q | 0 <= p < q < |init|
          ensures init[p] != init[q]
        {
          assert keys[p] == init[p] && keys[q] == init[q];
        }
      }
      assert last !in init by {
        forall p | 0 <= p < |init|
          ensures init[p] != last
        {
          assert keys[p] == init[p];
        }
      }
      AddKeysEffect(bk, init, i, key);
      AddKeysEffect(bk, init, i, last);
      assert key in keys <==> key in init || key == last;
    }
  }

  /** Adding block `i`'s keys to buckets of indices below `i` keeps them
      well formed, now below `i + 1`. */
  lemma {:induction false} AddKeysWellBucketed(bk: Buckets, keys: seq<BandKey>, i: nat)
    requires Distinct(keys)
    requires WellBucketed(bk, i)
    ensures WellBucketed(AddKeys(bk, keys, i), i + 1)
  {
    var r := AddKeys(bk, keys, i);
    forall key
      ensures key in r.order <==> key in r.members
      ensures key in r.members ==> InRange(r.members[key], i + 1) && Ascending(r.members[key])
    {
      AddKeysEffect(bk, keys, i, key);
      if key in r.members {
        var before := if key in bk.members then bk.members[key] else [];
        AppendAscending(before, i, key in keys);
      }
    }
  }

  /** Appending `i` (or nothing) to increasing indices below `i`. */
  lemma {:induction false} AppendAscending(s: seq<nat>, i: nat, add: bool)
    requires Ascending(s) && InRange(s, i)
    ensures var t := s + (if add then [i] else []);
      Ascending(t) && InRange(t, i + 1)
  {
    assert forall p :: 0 <= p < |s| ==> s[p] in s;
  }

  /** The buckets after the first `n` blocks, given each block's keys. */
  function Bucketing(keyLists: seq<seq<BandKey>>, n: nat): Buckets
    requires n <= |keyLists|
  {
    if n == 0 then Buckets([], map[])
    else AddKeys(Bucketing(keyLists, n - 1), keyLists[n - 1], n - 1)
  }

  /** The buckets are well formed after every block. */
  lemma {:induction false} BucketingWellBucketed(keyLists: seq<seq<BandKey>>, n: nat)
    requires n <= |keyLists|
    requires forall i :: 0 <= i < |keyLists| ==> Distinct(keyLists[i])
    ensures WellBucketed(Bucketing(keyLists, n), n)
  {
    if n > 0 {
      BucketingWellBucketed(keyLists, n - 1);
      AddKeysWellBucketed(Bucketing(keyLists, n - 1), keyLists[n - 1], n - 1);
    }
  }

  /** The reference definition of a bucket: the blocks before `n` that have
      `key` among their band keys, in index order. */
  function Members(keyLists: seq<seq<BandKey>>, key: BandKey, n: nat): (r: seq<nat>)
    requires n <= |keyLists|
    ensures Ascending(r) && InRange(r, n)
  {
    if n == 0 then []
    else
      var prev := Members(keyLists, key, n - 1);
      var r := prev + (if key in keyLists[n - 1] then [n - 1] else []);
      assert forall p :: 0 <= p < |prev| ==> prev[p] in prev;
      r
  }

  /** The reference bucket holds exactly the blocks with the key. */
  lemma {:induction false} MembersHas(keyLists: seq<seq<BandKey>>, key: BandKey, n: nat, x: nat)
    requires n <= |keyLists|
    ensures x in Members(keyLists, key, n) <==> x < n && key in keyLists[x]
  {
    if n > 0 {
      MembersHas(keyLists, key, n - 1, x);
    }
  }

  /** Each bucket of the dictionary is the reference bucket of its key, and
      a key has a bucket exactly when some block has that key. */
  lemma {:induction false} BucketingMembers(keyLists: seq<seq<BandKey>>, n: nat, key: BandKey)
    requires n <= |keyLists|
    requires forall i :: 0 <= i < |keyLists| ==> Distinct(keyLists[i])
    ensures key in Bucketing(keyLists, n).members <==> Members(keyLists, key, n) != []
    ensures key in Bucketing(keyLists, n).members ==> Bucketing(keyLists, n).members[key] == Members(keyLists, key, n)
  {
    if n > 0 {
      var prev := Bucketing(keyLists, n - 1);
      var keys := keyLists[n - 1];
      var r := Bucketing(keyLists, n);
      assert r == AddKeys(prev, keys, n - 1);
      BucketingWellBucketed(keyLists, n - 1);
      BucketingMembers(keyLists, n - 1, key);
      AddKeysEffect(prev, keys, n - 1, key);
      var before := Members(keyLists, key, n - 1);
      assert Members(keyLists, key, n) == before + (if key in keys then [n - 1] else []);
      assert key in r.members <==> key in prev.members || key in keys;
      if key in r.members {
        assert r.members[key] == AfterAdd(prev, keys, n - 1, key);
      }
    }
  }

  /** A shorter prefix of the blocks gives a prefix of each bucket. */
  lemma {:induction false} MembersPrefix(keyLists: seq<seq<BandKey>>, key: BandKey, m: nat, n: nat)
    requires m <= n <= |keyLists|
    ensures var short := Members(keyLists, key, m);
      |short| <= |Members(keyLists, key, n)| && short == Members(keyLists, key, n)[..|short|]
    decreases n
  {
    if m < n {
      MembersPrefix(keyLists, key, m, n - 1);
      var long := Members(keyLists, key, n - 1);
      assert Members(keyLists, key, n)[..|long|] == long;
    }
  }

  /** The bucket building loop (find_duplicate_wording.py:270-273). It
      fails on the first block when `band_buckets` raises. */
  method BuildBuckets(blocks: seq<Block>, bands: int) returns (r: Result<Buckets, BandError>)
    ensures |blocks| > 0 && !ValidBands(bands) ==> r == Failure(BandBuckets(blocks[0].simhash, bands).error)
    ensures |blocks| == 0 || ValidBands(bands) ==> r == Success(Bucketing(BlockKeys(blocks, bands), |blocks|))
  {
    var order: seq<BandKey> := [];
    var buckets: map<BandKey, seq<nat>> := map[];
    for i := 0 to |blocks|
      invariant Buckets(order, buckets) == Bucketing(BlockKeys(blocks, bands), i)
      invariant i > 0 ==> ValidBands(bands)
    {
      var keys := BandBuckets(blocks[i].simhash, bands);
      if keys.Failure? {
        return Failure(keys.error);
      }
      assert keys.value == BlockKeys(blocks, bands)[i];
      order, buckets := AddBlockKeys(order, buckets, keys.value, i);
    }
    r := Success(Buckets(order, buckets));
  }

  /** The inner loop of the bucket building: block `i` into the buckets of
      its keys. */
  method AddBlockKeys(order: seq<BandKey>, buckets: map<BandKey, seq<nat>>, keys: seq<BandKey>, i: nat)
    returns (newOrder: seq<BandKey>, newBuckets: map<BandKey, seq<nat>>)
    ensures Buckets(newOrder, newBuckets) == AddKeys(Buckets(order, buckets), keys, i)
  {
    newOrder, newBuckets := order, buckets;
    for t := 0 to |keys|
      invariant Buckets(newOrder, newBuckets) == AddKeys(Buckets(order, buckets), keys[..t], i)
    {
      var key := keys[t];
      assert keys[..t + 1][..t] == keys[..t];
      if key in newBuckets {
        newBuckets := newBuckets[key := newBuckets[key] + [i]];
      } else {
        newOrder := newOrder + [key];
        newBuckets := newBuckets[key := [i]];
      }
    }
    assert keys[..|keys|] == keys;
  }

  // ---------------------------------------------------------------------
  // Scanning the buckets (find_duplicate_wording.py:275-299)
  // ---------------------------------------------------------------------

  /** `seen_pairs` and `results` of the scan. */
  datatype Scan = Scan(seen: set<(nat, nat)>, results: seq<Match>)

  /** One candidate pair: skipped if seen, else marked seen (before the
      same-file test) and compared. */
  function Visit(blocks: seq<Block>, st: Scan, a: nat, b: nat, threshold: real, sameFile: bool): Scan
    requires a < |blocks| && b < |blocks|
  {
    var pair := if a < b then (a, b) else (b, a);
    if pair in st.seen then st
    else Scan(st.seen + {pair}, st.results + Compare(blocks, pair.0, pair.1, threshold, sameFile))
  }

  /** Entry `i` of a bucket against entries `i+1 .. m-1`. */
  function VisitRow(blocks: seq<Block>, st: Scan, idxs: seq<nat>, i: nat, m: nat, threshold: real, sameFile: bool): Scan
    requires InRange(idxs, |blocks|) && i < |idxs| && m <= |idxs|
  {
    if m <= i + 1 then st
    else
      assert idxs[i] in idxs && idxs[m - 1] in idxs;
      Visit(blocks, VisitRow(blocks, st, idxs, i, m - 1, threshold, sameFile), idxs[i], idxs[m - 1], threshold, sameFile)
  }

  /** Rows `0 .. k-1` of a bucket. */
  function VisitRows(blocks: seq<Block>, st: Scan, idxs: seq<nat>, k: nat, threshold: real, sameFile: bool): Scan
    requires InRange(idxs, |blocks|) && k <= |idxs|
  {
    if k == 0 then st
    else VisitRow(blocks, VisitRows(blocks, st, idxs, k - 1, threshold, sameFile), idxs, k - 1, |idxs|, threshold, sameFile)
  }

  /** `idxs[:300]` when the bucket is longer than 300. */
  function Capped(idxs: seq<nat>): (r: seq<nat>)
    ensures |r| == if |idxs| > BucketCap then BucketCap else |idxs|
    ensures r == idxs[..|r|]
    ensures forall x :: x in r ==> x in idxs
  {
    if |idxs| > BucketCap then idxs[..BucketCap] else idxs
  }

  /** One bucket: fewer than two entries are skipped, more than 300 cut. */
  function VisitBucket(blocks: seq<Block>, st: Scan, idxs: seq<nat>, threshold: real, sameFile: bool): Scan
    requires InRange(idxs, |blocks|)
  {
    if |idxs| < 2 then st
    else
      var c := Capped(idxs);
      VisitRows(blocks, st, c, |c|, threshold, sameFile)
  }

  /** The first `k` buckets in insertion order. */
  function VisitBuckets(blocks: seq<Block>, st: Scan, bk: Buckets, k: nat, threshold: real, sameFile: bool): Scan
    requires WellBucketed(bk, |blocks|) && k <= |bk.order|
  {
    if k == 0 then st
    else
      var prev := VisitBuckets(blocks, st, bk, k - 1, threshold, sameFile);
      VisitBucket(blocks, prev, bk.members[bk.order[k - 1]], threshold, sameFile)
  }

  /** The state at the end of the scan. */
  function LshScan(blocks: seq<Block>, bands: int, threshold: real, sameFile: bool): Scan {
    var bk := Bucketing(BlockKeys(blocks, bands), |blocks|);
    BucketingWellBucketed(BlockKeys(blocks, bands), |blocks|);
    VisitBuckets(blocks, Scan({}, []), bk, |bk.order|, threshold, sameFile)
  }

  /** `results` of SimHash mode before sorting. */
  function LshCandidates(blocks: seq<Block>, bands: int, threshold: real, sameFile: bool): seq<Match> {
    LshScan(blocks, bands, threshold, sameFile).results
  }

  /** SimHash mode: only blocks sharing a bucket are compared. */
  method SimHashMode(blocks: seq<Block>, threshold: real, maxPairs: int, bands: int, sameFile: bool)
    returns (r: Result<seq<Match>, BandError>)
    ensures |blocks| > 0 && !ValidBands(bands) ==> r == Failure(BandBuckets(blocks[0].simhash, bands).error)
    ensures |blocks| == 0 || ValidBands(bands) ==> r == Success(Rank(LshCandidates(blocks, bands, threshold, sameFile), maxPairs))
  {
    var built := BuildBuckets(blocks, bands);
    if built.Failure? {
      return Failure(built.error);
    }
    BucketingWellBucketed(BlockKeys(blocks, bands), |blocks|);
    var order, buckets := built.value.order, built.value.members;
    var seen: set<(nat, nat)> := {};
    var results: seq<Match> := [];
    for k := 0 to |order|
      invariant Scan(seen, results) == VisitBuckets(blocks, Scan({}, []), built.value, k, threshold, sameFile)
    {
      seen, results := ScanBucket(blocks, seen, results, buckets[order[k]], threshold, sameFile);
    }
    r := Success(Rank(results, maxPairs));
  }

  /** One pass of the loop over `buckets.values()`: short buckets are
      skipped, long ones cut to their first 300 entries. */
  method ScanBucket(blocks: seq<Block>, seen: set<(nat, nat)>, results: seq<Match>, idxs: seq<nat>, threshold: real, sameFile: bool)
    returns (newSeen: set<(nat, nat)>, newResults: seq<Match>)
    requires InRange(idxs, |blocks|)
    ensures Scan(newSeen, newResults) == VisitBucket(blocks, Scan(seen, results), idxs, threshold, sameFile)
  {
    if |idxs| < 2 {
      return seen, results;
    }
    var capped := idxs;
    if |capped| > BucketCap {
      capped := capped[..BucketCap];
    }
    assert capped == Capped(idxs);
    newSeen, newResults := ScanPairs(blocks, seen, results, capped, threshold, sameFile);
  }

  /** The two nested loops over the entries of one (capped) bucket. */
  method ScanPairs(blocks: seq<Block>, seen: set<(nat, nat)>, results: seq<Match>, idxs: seq<nat>, threshold: real, sameFile: bool)
    returns (newSeen: set<(nat, nat)>, newResults: seq<Match>)
    requires InRange(idxs, |blocks|)
    ensures Scan(newSeen, newResults) == VisitRows(blocks, Scan(seen, results), idxs, |idxs|, threshold, sameFile)
  {
    newSeen, newResults := seen, results;
    for i := 0 to |idxs|
      invariant Scan(newSeen, newResults) == VisitRows(blocks, Scan(seen, results), idxs, i, threshold, sameFile)
    {
      ghost var before := Scan(newSeen, newResults);
      for j := i + 1 to |idxs|
        invariant Scan(newSeen, newResults) == VisitRow(blocks, before, idxs, i, j, threshold, sameFile)
      {
        assert idxs[i] in idxs && idxs[j] in idxs;
        newSeen, newResults := VisitPair(blocks, newSeen, newResults, idxs[i], idxs[j], threshold, sameFile);
      }
    }
  }

  /** The body of the inner loop: skip a seen pair; otherwise mark it seen
      before the same-file test, then keep it when it scores at least
      `threshold`. */
  method VisitPair(blocks: seq<Block>, seen: set<(nat, nat)>, results: seq<Match>, a: nat, b: nat,
                   threshold: real, sameFile: bool)
    returns (newSeen: set<(nat, nat)>, newResults: seq<Match>)
    requires a < |blocks| && b < |blocks|
    ensures Scan(newSeen, newResults) == Visit(blocks, Scan(seen, results), a, b, threshold, sameFile)
  {
    newSeen, newResults := seen, results;
    var pair := if a < b then (a, b) else (b, a);
    if pair in newSeen {
      return;
    }
    newSeen := newSeen + {pair};
    var first, second := blocks[pair.0], blocks[pair.1];
    if !sameFile && first.filePath == second.filePath {
      return;
    }
    var score := Jaccard(first.tokensSet, second.tokensSet);
    if score >= threshold {
      newResults := newResults + [Match(pair.0, pair.1, score)];
    }
  }

  // ---------------------------------------------------------------------
  // What the scan keeps
  // ---------------------------------------------------------------------

  /** The invariant of the scan: seen pairs are ordered pairs of blocks;
      a result is a valid match of a seen pair; a valid match of a seen pair
      is a result; and no pair is reported twice. */
  ghost predicate ScanInv(blocks: seq<Block>, st: Scan, threshold: real, sameFile: bool) {
    && (forall p :: p in st.seen ==> p.0 < p.1 < |blocks|)
    && (forall m :: m in st.results ==> ValidMatch(blocks, m, threshold, sameFile) && PairOf(m) in st.seen)
    && (forall m :: ValidMatch(blocks, m, threshold, sameFile) && PairOf(m) in st.seen ==> m in st.results)
    && PairsDistinct(st.results)
  }

  /** Every pair of entries of `idxs` has been seen. */
  predicate Covered(st: Scan, idxs: seq<nat>) {
    forall p, q :: 0 <= p < q < |idxs| ==> (idxs[p], idxs[q]) in st.seen
  }

  lemma {:induction false} VisitKeeps(blocks: seq<Block>, st: Scan, a: nat, b: nat, threshold: real, sameFile: bool)
    requires a < |blocks| && b < |blocks| && a != b
    requires ScanInv(blocks, st, threshold, sameFile)
    ensures var r := Visit(blocks, st, a, b, threshold, sameFile);
      ScanInv(blocks, r, threshold, sameFile) && st.seen <= r.seen
      && (if a < b then (a, b) else (b, a)) in r.seen
  {
    var pair := if a < b then (a, b) else (b, a);
    if pair !in st.seen {
      var r := Visit(blocks, st, a, b, threshold, sameFile);
      var c := Compare(blocks, pair.0, pair.1, threshold, sameFile);
      forall x | x in st.results
        ensures PairOf(x) != pair
      {
      }
      DistinctAppend(st.results, c);
      forall m | ValidMatch(blocks, m, threshold, sameFile) && PairOf(m) in r.seen
        ensures m in r.results
      {
        if PairOf(m) == pair {
          assert m == Match(pair.0, pair.1, Score(blocks, pair.0, pair.1));
        }
      }
    }
  }

  lemma {:induction false} VisitRowKeeps(blocks: seq<Block>, st: Scan, idxs: seq<nat>, i: nat, m: nat, threshold: real, sameFile: bool)
    requires InRange(idxs, |blocks|) && Ascending(idxs) && i < |idxs| && m <= |idxs|
    requires ScanInv(blocks, st, threshold, sameFile)
    ensures var r := VisitRow(blocks, st, idxs, i, m, threshold, sameFile);
      ScanInv(blocks, r, threshold, sameFile) && st.seen <= r.seen
      && forall q :: i < q < m ==> (idxs[i], idxs[q]) in r.seen
  {
    if m > i + 1 {
      VisitRowKeeps(blocks, st, idxs, i, m - 1, threshold, sameFile);
      var prev := VisitRow(blocks, st, idxs, i, m - 1, threshold, sameFile);
      var r := VisitRow(blocks, st, idxs, i, m, threshold, sameFile);
      assert idxs[i] in idxs && idxs[m - 1] in idxs;
      assert r == Visit(blocks, prev, idxs[i], idxs[m - 1], threshold, sameFile);
      VisitKeeps(blocks, prev, idxs[i], idxs[m - 1], threshold, sameFile);
      forall q | i < q < m
        ensures (idxs[i], idxs[q]) in r.seen
      {
        if q < m - 1 {
          assert (idxs[i], idxs[q]) in prev.seen;
        }
      }
    }
  }

  lemma {:induction false} VisitRowsKeeps(blocks: seq<Block>, st: Scan, idxs: seq<nat>, k: nat, threshold: real, sameFile: bool)
    requires InRange(idxs, |blocks|) && Ascending(idxs) && k <= |idxs|
    requires ScanInv(blocks, st, threshold, sameFile)
    ensures var r := VisitRows(blocks, st, idxs, k, threshold, sameFile);
      ScanInv(blocks, r, threshold, sameFile) && st.seen <= r.seen
      && forall p, q :: 0 <= p < k && p < q < |idxs| ==> (idxs[p], idxs[q]) in r.seen
  {
    if k > 0 {
      VisitRowsKeeps(blocks, st, idxs, k - 1, threshold, sameFile);
      var prev := VisitRows(blocks, st, idxs, k - 1, threshold, sameFile);
      var r := VisitRows(blocks, st, idxs, k, threshold, sameFile);
      assert r == VisitRow(blocks, prev, idxs, k - 1, |idxs|, threshold, sameFile);
      VisitRowKeeps(blocks, prev, idxs, k - 1, |idxs|, threshold, sameFile);
      forall p, q | 0 <= p < k && p < q < |idxs|
        ensures (idxs[p], idxs[q]) in r.seen
      {
        if p < k - 1 {
          assert (idxs[p], idxs[q]) in prev.seen;
        }
      }
    }
  }

  /** Scanning a bucket keeps the invariant and sees every pair of its
      first 300 entries. */
  lemma {:induction false} VisitBucketKeeps(blocks: seq<Block>, st: Scan, idxs: seq<nat>, threshold: real, sameFile: bool)
    requires InRange(idxs, |blocks|) && Ascending(idxs)
    requires ScanInv(blocks, st, threshold, sameFile)
    ensures var r := VisitBucket(blocks, st, idxs, threshold, sameFile);
      ScanInv(blocks, r, threshold, sameFile) && st.seen <= r.seen && Covered(r, Capped(idxs))
  {
    var c := Capped(idxs);
    assert InRange(c, |blocks|) && Ascending(c) by {
      forall x | x in c
        ensures x in idxs
      {
        var p :| 0 <= p < |c| && c[p] == x;
        assert idxs[p] == x;
      }
    }
    if |idxs| >= 2 {
      VisitRowsKeeps(blocks, st, c, |c|, threshold, sameFile);
    }
  }

  lemma {:induction false} VisitBucketsKeeps(blocks: seq<Block>, st: Scan, bk: Buckets, k: nat, threshold: real, sameFile: bool)
    requires WellBucketed(bk, |blocks|) && k <= |bk.order|
    requires ScanInv(blocks, st, threshold, sameFile)
    ensures var r := VisitBuckets(blocks, st, bk, k, threshold, sameFile);
      ScanInv(blocks, r, threshold, sameFile) && st.seen <= r.seen
      && forall e :: 0 <= e < k ==> Covered(r, Capped(bk.members[bk.order[e]]))
  {
    if k > 0 {
      VisitBucketsKeeps(blocks, st, bk, k - 1, threshold, sameFile);
      var prev := VisitBuckets(blocks, st, bk, k - 1, threshold, sameFile);
      var key := bk.order[k - 1];
      VisitBucketKeeps(blocks, prev, bk.members[key], threshold, sameFile);
      var r := VisitBuckets(blocks, st, bk, k, threshold, sameFile);
      forall e | 0 <= e < k - 1
        ensures Covered(r, Capped(bk.members[bk.order[e]]))
      {
        assert Covered(prev, Capped(bk.members[bk.order[e]]));
      }
    }
  }

  /** The scan ends in a state satisfying its invariant. */
  lemma {:induction false} LshScanKeeps(blocks: seq<Block>, bands: int, threshold: real, sameFile: bool)
    ensures ScanInv(blocks, LshScan(blocks, bands, threshold, sameFile), threshold, sameFile)
  {
    var bk := Bucketing(BlockKeys(blocks, bands), |blocks|);
    BucketingWellBucketed(BlockKeys(blocks, bands), |blocks|);
    VisitBucketsKeeps(blocks, Scan({}, []), bk, |bk.order|, threshold, sameFile);
  }

  /** SimHash mode reports only valid matches, each pair once: it finds a
      subset of what brute force finds. */
  lemma {:induction false} LshWithinBruteForce(blocks: seq<Block>, bands: int, threshold: real, sameFile: bool)
    ensures forall m :: m in LshCandidates(blocks, bands, threshold, sameFile) ==>
      ValidMatch(blocks, m, threshold, sameFile) && m in BruteCandidates(blocks, threshold, sameFile)
    ensures PairsDistinct(LshCandidates(blocks, bands, threshold, sameFile))
  {
    LshScanKeeps(blocks, bands, threshold, sameFile);
    BruteForceExact(blocks, threshold, sameFile);
  }

  /** Blocks `a < b` sharing a band key are compared, and reported when
      their match is valid, provided `b` is among the first 300 blocks of
      that key's bucket. */
  lemma {:induction false} SharedBucketMeets(blocks: seq<Block>, bands: int, threshold: real, sameFile: bool, a: nat, b: nat, key: BandKey)
    requires a < b < |blocks|
    requires key in KeysOf(blocks[a].simhash, bands) && key in KeysOf(blocks[b].simhash, bands)
    requires |Members(BlockKeys(blocks, bands), key, b + 1)| <= BucketCap
    ensures (a, b) in LshScan(blocks, bands, threshold, sameFile).seen
    ensures ValidMatch(blocks, Match(a, b, Score(blocks, a, b)), threshold, sameFile) ==>
      Match(a, b, Score(blocks, a, b)) in LshCandidates(blocks, bands, threshold, sameFile)
  {
    var n := |blocks|;
    var kl := BlockKeys(blocks, bands);
    var bk := Bucketing(kl, n);
    BucketingWellBucketed(kl, n);
    var idxs := Members(kl, key, n);
    var p, q := BucketPositions(kl, key, a, b);
    BucketingMembers(kl, n, key);
    assert key in bk.order;
    var e :| 0 <= e < |bk.order| && bk.order[e] == key;
    VisitBucketsKeeps(blocks, Scan({}, []), bk, |bk.order|, threshold, sameFile);
    var st := LshScan(blocks, bands, threshold, sameFile);
    var c := Capped(idxs);
    assert Covered(st, c);
    assert c[p] == a && c[q] == b;
    assert (c[p], c[q]) in st.seen;
    LshScanKeeps(blocks, bands, threshold, sameFile);
    var m := Match(a, b, Score(blocks, a, b));
    assert PairOf(m) in st.seen;
  }

  /** Where `a < b` sit in the bucket of a key both have: `b` at the
      position given by the blocks up to it, `a` before it. */
  lemma {:induction false} BucketPositions(keyLists: seq<seq<BandKey>>, key: BandKey, a: nat, b: nat) returns (p: nat, q: nat)
    requires a < b < |keyLists|
    requires key in keyLists[a] && key in keyLists[b]
    ensures p < q == |Members(keyLists, key, b + 1)| - 1
    ensures var idxs := Members(keyLists, key, |keyLists|);
      q < |idxs| && idxs[p] == a && idxs[q] == b
  {
    var n := |keyLists|;
    var ma := Members(keyLists, key, a + 1);
    var mb := Members(keyLists, key, b + 1);
    MembersPrefix(keyLists, key, a + 1, b + 1);
    MembersPrefix(keyLists, key, b + 1, n);
    MembersHas(keyLists, key, a + 1, a);
    MembersHas(keyLists, key, b + 1, b);
    p, q := |ma| - 1, |mb| - 1;
    assert ma[p] == a by {
      var t :| 0 <= t < |ma| && ma[t] == a;
      assert ma[p] in ma;
    }
    assert mb[q] == b by {
      var t :| 0 <= t < |mb| && mb[t] == b;
      assert mb[q] in mb;
    }
    assert p != q;
  }

  /** The recall of the bucketing: blocks with the same fingerprint share
      every band key, so among the first 300 blocks they are always
      compared. */
  lemma {:induction false} SameFingerprintMeets(blocks: seq<Block>, bands: int, threshold: real, sameFile: bool, a: nat, b: nat)
    requires ValidBands(bands)
    requires a < b < |blocks| && b < BucketCap
    requires blocks[a].simhash == blocks[b].simhash
    ensures (a, b) in LshScan(blocks, bands, threshold, sameFile).seen
    ensures ValidMatch(blocks, Match(a, b, Score(blocks, a, b)), threshold, sameFile) ==>
      Match(a, b, Score(blocks, a, b)) in LshCandidates(blocks, bands, threshold, sameFile)
  {
    var keys := KeysOf(blocks[b].simhash, bands);
    var key := keys[0];
    var mb := Members(BlockKeys(blocks, bands), key, b + 1);
    IncreasingBound(mb, b + 1);
    SharedBucketMeets(blocks, bands, threshold, sameFile, a, b, key);
  }

  /** Increasing indices below `n` number at most `n`. */
  lemma {:induction false} IncreasingBound(s: seq<nat>, n: nat)
    requires Ascending(s) && InRange(s, n)
    ensures |s| <= n
    decreases n
  {
    if s != [] {
      var init := s[..|s| - 1];
      var last := s[|s| - 1];
      assert last in s;
      assert InRange(init, last) by {
        forall x | x in init
          ensures x < last
        {
          var p :| 0 <= p < |init| && init[p] == x;
          assert s[p] == x;
        }
      }
      IncreasingBound(init, last);
    }
  }

  // ---------------------------------------------------------------------
  // The whole operation
  // ---------------------------------------------------------------------

  /** `find_near_duplicates(blocks, jaccard_threshold, max_pairs, bands,
      same_file, bruteforce)`; `band_buckets` raising is a `Failure`. */
  function NearDuplicates(blocks: seq<Block>, threshold: real, maxPairs: int, bands: int, sameFile: bool, bruteforce: bool)
    : Result<seq<Match>, BandError>
  {
    if bruteforce then Success(Rank(BruteCandidates(blocks, threshold, sameFile), maxPairs))
    else if |blocks| > 0 && !ValidBands(bands) then Failure(BandBuckets(blocks[0].simhash, bands).error)
    else Success(Rank(LshCandidates(blocks, bands, threshold, sameFile), maxPairs))
  }

  /** Ranking keeps valid matches valid and distinct pairs distinct. */
  lemma {:induction false} RankKeepsValid(blocks: seq<Block>, results: seq<Match>, maxPairs: int, threshold: real, sameFile: bool)
    requires forall m :: m in results ==> ValidMatch(blocks, m, threshold, sameFile)
    requires PairsDistinct(results)
    ensures forall m :: m in Rank(results, maxPairs) ==> ValidMatch(blocks, m, threshold, sameFile)
    ensures PairsDistinct(Rank(results, maxPairs))
  {
    var r := Rank(results, maxPairs);
    forall m | m in r
      ensures m in results
    {
      assert m in multiset(r);
    }
    forall i, j | 0 <= i < j < |r|
      ensures PairOf(r[i]) != PairOf(r[j])
    {
      assert r[i] in results && r[j] in results;
      if r[i] == r[j] {
        TwiceInMultiset(r, i, j);
        OnceInMultiset(results, r[i]);
      } else {
        var p :| 0 <= p < |results| && results[p] == r[i];
        var q :| 0 <= q < |results| && results[q] == r[j];
        assert p != q;
      }
    }
  }

  lemma {:induction false} TwiceInMultiset(s: seq<Match>, i: nat, j: nat)
    requires i < j < |s| && s[i] == s[j]
    ensures multiset(s)[s[i]] >= 2
  {
    assert s == s[..j] + [s[j]] + s[j + 1..];
    assert s[..j][i] == s[i];
  }

  /** Without repeated pairs, no match occurs twice. */
  lemma {:induction false} OnceInMultiset(s: seq<Match>, x: Match)
    requires PairsDistinct(s)
    ensures multiset(s)[x] <= 1
  {
    if s != [] {
      var init := s[..|s| - 1];
      assert s == init + [s[|s| - 1]];
      assert PairsDistinct(init) by {
        forall i, j | 0 <= i < j < |init|
          ensures PairOf(init[i]) != PairOf(init[j])
        {
          assert init[i] == s[i] && init[j] == s[j];
        }
      }
      OnceInMultiset(init, x);
    }
  }

  /** `find_near_duplicates` (find_duplicate_wording.py:232-302). It fails
      only in SimHash mode on a nonempty input whose `bands` does not divide
      64; otherwise its matches are valid, each pair once, best first, and at
      most `max_pairs` of them. */
  method FindNearDuplicates(blocks: seq<Block>, threshold: real, maxPairs: int, bands: int, sameFile: bool, bruteforce: bool)
    returns (r: Result<seq<Match>, BandError>)
    ensures r == NearDuplicates(blocks, threshold, maxPairs, bands, sameFile, bruteforce)
    ensures r.Failure? <==> !bruteforce && |blocks| > 0 && !ValidBands(bands)
    ensures r.Success? ==> SortedDesc(r.value) && PairsDistinct(r.value)
    ensures r.Success? ==> forall m :: m in r.value ==> ValidMatch(blocks, m, threshold, sameFile)
    ensures r.Success? && maxPairs >= 0 ==> |r.value| <= maxPairs
  {
    if bruteforce {
      var out := BruteForce(blocks, threshold, maxPairs, sameFile);
      BruteForceExact(blocks, threshold, sameFile);
      RankKeepsValid(blocks, BruteCandidates(blocks, threshold, sameFile), maxPairs, threshold, sameFile);
      return Success(out);
    }
    r := SimHashMode(blocks, threshold, maxPairs, bands, sameFile);
    if r.Success? {
      LshWithinBruteForce(blocks, bands, threshold, sameFile);
      RankKeepsValid(blocks, LshCandidates(blocks, bands, threshold, sameFile), maxPairs, threshold, sameFile);
    }
  }
}
