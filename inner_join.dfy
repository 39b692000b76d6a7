/**
 * `pd.merge(left, right, left_on=..., right_on=..., how='inner')` on
 * already-normalised key columns: one merged row for every (left row,
 * right row) pair whose keys are equal, in the order of the left rows and,
 * within one left row, of the right rows (the order pandas documents for
 * `how='inner'` from version 2.2; earlier releases could group rows with a
 * repeated key together instead). Duplicate keys therefore
 * multiply; nothing keeps only the first match.
 */
module InnerJoin {
  import opened Options
  import opened Frames

  /** The positions of `keys` that hold `k`, ascending. */
  function Matches(k: string, keys: seq<string>): (js: seq<nat>)
    ensures forall j: nat :: j in js <==> j < |keys| && keys[j] == k
    ensures forall a, b :: 0 <= a < b < |js| ==> js[a] < js[b]
  {
    if keys == [] then []
    else
      var n := |keys| - 1;
      var front := Matches(k, keys[..n]);
      assert forall j: nat :: j < n ==> keys[..n][j] == keys[j];
      EntriesBelow(front, n);
      front + (if keys[n] == k then [n] else [])
  }

  lemma EntriesBelow(js: seq<nat>, n: nat)
    requires forall j: nat :: j in js ==> j < n
    ensures forall a :: 0 <= a < |js| ==> js[a] < n
  {
    forall a | 0 <= a < |js|
      ensures js[a] < n
    {
      assert js[a] in js;
    }
  }

  /** Left row `i` paired with each right row of `js`, in that order. */
  function PairsWith(i: nat, js: seq<nat>): (ps: seq<(nat, nat)>)
    ensures |ps| == |js|
    ensures forall t :: 0 <= t < |ps| ==> ps[t] == (i, js[t])
    ensures forall p :: p in ps <==> p.0 == i && p.1 in js
  {
    if js == [] then [] else PairsWith(i, js[..|js| - 1]) + [(i, js[|js| - 1])]
  }

  /** Merged-row order: by left row, then by right row. */
  predicate Before(p: (nat, nat), q: (nat, nat)) {
    p.0 < q.0 || (p.0 == q.0 && p.1 < q.1)
  }

  /** The (left row, right row) index pairs of the inner join of two key columns. */
  function JoinPairs(lk: seq<string>, rk: seq<string>): (ps: seq<(nat, nat)>)
    ensures forall p :: p in ps <==> p.0 < |lk| && p.1 < |rk| && lk[p.0] == rk[p.1]
    ensures forall a, b :: 0 <= a < b < |ps| ==> Before(ps[a], ps[b])
  {
    if lk == [] then []
    else
      var n := |lk| - 1;
      JoinPairs(lk[..n], rk) + PairsWith(n, Matches(lk[n], rk))
  }

  /** Nothing on the right: the merge is empty. */
  lemma {:induction false} JoinPairsNoRight(lk: seq<string>)
    ensures JoinPairs(lk, []) == []
  {
    if lk != [] {
      JoinPairsNoRight(lk[..|lk| - 1]);
    }
  }

  /** The merge is empty exactly when no left key equals a right key. */
  lemma JoinPairsEmpty(lk: seq<string>, rk: seq<string>)
    ensures JoinPairs(lk, rk) == [] <==> forall i, j :: 0 <= i < |lk| && 0 <= j < |rk| ==> lk[i] != rk[j]
  {
    var ps := JoinPairs(lk, rk);
    if ps != [] {
      assert ps[0] in ps;
    } else {
      forall i, j | 0 <= i < |lk| && 0 <= j < |rk|
        ensures lk[i] != rk[j]
      {
        assert (i, j) !in ps;
      }
    }
  }

  /** How many entries of `keys` equal `k`. */
  function Occurrences(k: string, keys: seq<string>): nat {
    if keys == [] then 0
    else Occurrences(k, keys[..|keys| - 1]) + (if keys[|keys| - 1] == k then 1 else 0)
  }

  lemma {:induction false} MatchesCount(k: string, keys: seq<string>)
    ensures |Matches(k, keys)| == Occurrences(k, keys)
  {
    if keys != [] {
      MatchesCount(k, keys[..|keys| - 1]);
    }
  }

  /**
   * The merge's size: each left row contributes one merged row per right
   * row with the same key, so repeated keys multiply.
   */
  function JoinSize(lk: seq<string>, rk: seq<string>): nat {
    if lk == [] then 0 else JoinSize(lk[..|lk| - 1], rk) + Occurrences(lk[|lk| - 1], rk)
  }

  lemma {:induction false} JoinPairsCount(lk: seq<string>, rk: seq<string>)
    ensures |JoinPairs(lk, rk)| == JoinSize(lk, rk)
  {
    if lk != [] {
      JoinPairsCount(lk[..|lk| - 1], rk);
      MatchesCount(lk[|lk| - 1], rk);
    }
  }

  /** Two left rows and two right rows on one key give four merged rows. */
  lemma DuplicatesMultiply()
    ensures |JoinPairs(["sub-01", "sub-01"], ["sub-01", "sub-01"])| == 4
  {
    JoinPairsCount(["sub-01", "sub-01"], ["sub-01", "sub-01"]);
    assert ["sub-01", "sub-01"][..1] == ["sub-01"];
    assert ["sub-01"][..0] == [];
  }

  predicate Distinct(ks: seq<string>) {
    forall a, b :: 0 <= a < b < |ks| ==> ks[a] != ks[b]
  }

  lemma MatchesOfDistinct(k: string, keys: seq<string>)
    requires Distinct(keys)
    ensures |Matches(k, keys)| == if k in keys then 1 else 0
  {
    var js := Matches(k, keys);
    if k in keys {
      var j :| 0 <= j < |keys| && keys[j] == k;
      assert j in js;
    }
  }

  /** The keys present on both sides. */
  function Shared(lk: seq<string>, rk: seq<string>): set<string> {
    set k | k in lk && k in rk
  }

  lemma SharedLast(lk: seq<string>, rk: seq<string>)
    requires lk != []
    ensures var n := |lk| - 1;
      Shared(lk, rk) == Shared(lk[..n], rk) + (if lk[n] in rk then {lk[n]} else {})
  {
    var n := |lk| - 1;
    assert lk == lk[..n] + [lk[n]];
    forall k ensures k in lk <==> k in lk[..n] || k == lk[n] {
    }
  }

  /** With each key at most once per side, the merge has one row per shared key. */
  lemma {:induction false} UniqueKeysCount(lk: seq<string>, rk: seq<string>)
    requires Distinct(lk) && Distinct(rk)
    ensures |JoinPairs(lk, rk)| == |Shared(lk, rk)|
  {
    if lk == [] {
      assert Shared(lk, rk) == {};
    } else {
      var n := |lk| - 1;
      var front := lk[..n];
      assert Distinct(front);
      UniqueKeysCount(front, rk);
      MatchesOfDistinct(lk[n], rk);
      assert |JoinPairs(lk, rk)| == |JoinPairs(front, rk)| + |Matches(lk[n], rk)|;
      SharedLast(lk, rk);
      assert lk[n] !in front;
      assert |Shared(lk, rk)| == |Shared(front, rk)| + (if lk[n] in rk then 1 else 0);
    }
  }

  /** Where a column of the merged frame comes from. */
  datatype Source = FromLeft(i: nat) | FromRight(i: nat)

  /**
   * Selecting `merged[name]`: a name found in only one of the two tables
   * comes from that table; a name found in both was renamed with the
   * `_x`/`_y` suffixes by the merge, and so was not found either.
   */
  function MergedColumn(lc: seq<string>, rc: seq<string>, name: string): (s: Option<Source>)
    ensures s.Some? && s.value.FromLeft? ==> name !in rc && s.value.i < |lc| && lc[s.value.i] == name
    ensures s.Some? && s.value.FromRight? ==> name !in lc && s.value.i < |rc| && rc[s.value.i] == name
    ensures s.None? <==> (name in lc && name in rc) || (ColumnIndex(lc, name).None? && ColumnIndex(rc, name).None?)
  {
    if name in lc && name in rc then None
    else match ColumnIndex(lc, name)
      case Some(i) => Some(FromLeft(i))
      case None =>
        match ColumnIndex(rc, name)
        case Some(j) => Some(FromRight(j))
        case None => None
  }

  /** One row of the merged frame: the contributing left row and right row. */
  datatype MergedRow = MergedRow(left: seq<Cell>, right: seq<Cell>)

  /** The cell of a merged row in the column a `Source` names. */
  function Pick(m: MergedRow, s: Source): Cell
    requires s.FromLeft? ==> s.i < |m.left|
    requires s.FromRight? ==> s.i < |m.right|
  {
    match s
    case FromLeft(i) => m.left[i]
    case FromRight(j) => m.right[j]
  }

  /** The merged frame's rows for the join pairs `ps`. */
  function MergeRows(left: Parsed, right: Parsed, ps: seq<(nat, nat)>): seq<MergedRow>
    requires forall p :: p in ps ==> p.0 < |left.rows| && p.1 < |right.rows|
  {
    seq(|ps|, t requires 0 <= t < |ps| =>
      assert ps[t] in ps;
      assert left.rows[ps[t].0] in left.rows && right.rows[ps[t].1] in right.rows;
      MergedRow(left.rows[ps[t].0], right.rows[ps[t].1]))
  }

  /** Row `t` of the merged rows, for the proofs that name it. */
  lemma MergeRowsAt(left: Parsed, right: Parsed, ps: seq<(nat, nat)>, t: nat)
    requires forall p :: p in ps ==> p.0 < |left.rows| && p.1 < |right.rows|
    requires t < |ps|
    ensures |MergeRows(left, right, ps)| == |ps|
    ensures MergeRows(left, right, ps)[t] == MergedRow(left.rows[ps[t].0], right.rows[ps[t].1])
  {
  }
}
