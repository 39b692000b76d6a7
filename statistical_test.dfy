/**
 * The subject-matching front end of the SUVR / Centiloid validation:
 * fail-fast input checks, the reference header clean-up, identifier
 * normalisation, the inner merge of computed rows with reference rows,
 * the "no matching subjects" exit, and the paired columns that the
 * correlation is then computed on.
 */
module StatisticalTest {
  import opened Options
  import opened Frames
  import opened InnerJoin

  const SubjectIdColumn := "subject_id"
  const SubjectColumn := "Subject"
  const SuvrColumn := "global_cortical_suvr"
  const RefSuvrColumn := "SUVR"
  const CentiloidColumn := "global_cortical_centiloid"
  const RefCentiloidColumn := "Centiloid"

  /** A metric's computed values and reference values, one entry per merged row. */
  datatype Paired = Paired(computed: seq<Cell>, reference: seq<Cell>)

  /** How a run ends, up to the correlation step. */
  datatype Outcome =
    | ResultsNotFound
    | ResultsUnreadable
    | ResultsEmpty
    | ReferenceNotFound
    | ReferenceUnreadable
    | ColumnMissing(name: string)  // an uncaught KeyError (or an ambiguous column)
    | NoMatchingSubjects
    | Analysed(matched: seq<(nat, nat)>, merged: seq<MergedRow>, suvr: Paired, centiloid: Paired)
  {
    /**
     * The run stops here with exit status 1. `Analysed` is not fatal: it is
     * where the model stops, before the correlation, the printing and the
     * plots, which may still fail on their own.
     */
    predicate Fatal() {
      !Analysed?
    }
  }

  /** Every merged row has one cell per column of the table it came from. */
  predicate Shaped(merged: seq<MergedRow>, lc: seq<string>, rc: seq<string>) {
    forall t :: 0 <= t < |merged| ==> |merged[t].left| == |lc| && |merged[t].right| == |rc|
  }

  /** `merged[name]`, as a sequence of cells. */
  function ColumnOf(merged: seq<MergedRow>, lc: seq<string>, rc: seq<string>, src: Source): (cells: seq<Cell>)
    requires Shaped(merged, lc, rc)
    requires src.FromLeft? ==> src.i < |lc|
    requires src.FromRight? ==> src.i < |rc|
  {
    seq(|merged|, t requires 0 <= t < |merged| => Pick(merged[t], src))
  }

  /** `cells` is the column `name` of the merged frame: entry `t` comes from merged row `t`. */
  predicate IsColumn(cells: seq<Cell>, merged: seq<MergedRow>, lc: seq<string>, rc: seq<string>, name: string)
    requires Shaped(merged, lc, rc)
  {
    match MergedColumn(lc, rc, name)
    case None => false
    case Some(src) => |cells| == |merged| && forall t :: 0 <= t < |cells| ==> cells[t] == Pick(merged[t], src)
  }

  /**
   * Taking `x_suvr`, `y_suvr`, `x_cl` and `y_cl` out of the merged frame,
   * in that order; the first column that cannot be selected ends the run.
   */
  function Extract(lc: seq<string>, rc: seq<string>, matched: seq<(nat, nat)>, merged: seq<MergedRow>): (o: Outcome)
    requires Shaped(merged, lc, rc)
    ensures o.Analysed? || o.ColumnMissing?
    ensures o.Analysed? <==>
      && MergedColumn(lc, rc, SuvrColumn).Some? && MergedColumn(lc, rc, RefSuvrColumn).Some?
      && MergedColumn(lc, rc, CentiloidColumn).Some? && MergedColumn(lc, rc, RefCentiloidColumn).Some?
    ensures o.ColumnMissing? ==> MergedColumn(lc, rc, o.name).None?
    ensures o == ColumnMissing(SuvrColumn) <==> MergedColumn(lc, rc, SuvrColumn).None?
    ensures o == ColumnMissing(RefSuvrColumn) <==>
      MergedColumn(lc, rc, SuvrColumn).Some? && MergedColumn(lc, rc, RefSuvrColumn).None?
    ensures o == ColumnMissing(CentiloidColumn) <==>
      && MergedColumn(lc, rc, SuvrColumn).Some? && MergedColumn(lc, rc, RefSuvrColumn).Some?
      && MergedColumn(lc, rc, CentiloidColumn).None?
    ensures o == ColumnMissing(RefCentiloidColumn) <==>
      && MergedColumn(lc, rc, SuvrColumn).Some? && MergedColumn(lc, rc, RefSuvrColumn).Some?
      && MergedColumn(lc, rc, CentiloidColumn).Some? && MergedColumn(lc, rc, RefCentiloidColumn).None?
    ensures o.ColumnMissing? ==>
      o.name == SuvrColumn || o.name == RefSuvrColumn || o.name == CentiloidColumn || o.name == RefCentiloidColumn
    ensures o.Analysed? ==>
      && o.matched == matched && o.merged == merged
      && IsColumn(o.suvr.computed, merged, lc, rc, SuvrColumn)
      && IsColumn(o.suvr.reference, merged, lc, rc, RefSuvrColumn)
      && IsColumn(o.centiloid.computed, merged, lc, rc, CentiloidColumn)
      && IsColumn(o.centiloid.reference, merged, lc, rc, RefCentiloidColumn)
  {
    match MergedColumn(lc, rc, SuvrColumn)
    case None => ColumnMissing(SuvrColumn)
    case Some(xs) =>
      match MergedColumn(lc, rc, RefSuvrColumn)
      case None => ColumnMissing(RefSuvrColumn)
      case Some(ys) =>
        match MergedColumn(lc, rc, CentiloidColumn)
        case None => ColumnMissing(CentiloidColumn)
        case Some(xc) =>
          match MergedColumn(lc, rc, RefCentiloidColumn)
          case None => ColumnMissing(RefCentiloidColumn)
          case Some(yc) =>
            Analysed(matched, merged,
                     Paired(ColumnOf(merged, lc, rc, xs), ColumnOf(merged, lc, rc, ys)),
                     Paired(ColumnOf(merged, lc, rc, xc), ColumnOf(merged, lc, rc, yc)))
  }

  /** The reference table once its header names are stripped. */
  function CleanHeader(t: Parsed): Parsed {
    Table(StrippedNames(t.columns), t.rows)
  }

  /** Computed row `i` and reference row `j` carry the same subject once both identifiers are normalised. */
  predicate SameSubject(comp: Parsed, ref: Parsed, ci: nat, ri: nat, i: nat, j: nat)
    requires ci < |comp.columns| && ri < |ref.columns|
  {
    i < |comp.rows| && j < |ref.rows| && Ids(comp, ci)[i] == Ids(ref, ri)[j]
  }

  /** Normalise both identifier columns, merge, and extract the paired columns. */
  function Compare(comp: Parsed, ref: Parsed): (o: Outcome)
    ensures o.ColumnMissing? || o.NoMatchingSubjects? || o.Analysed?
    ensures o == ColumnMissing(SubjectIdColumn) <==> ColumnIndex(comp.columns, SubjectIdColumn).None?
    ensures o == ColumnMissing(SubjectColumn) <==>
      ColumnIndex(comp.columns, SubjectIdColumn).Some? && ColumnIndex(ref.columns, SubjectColumn).None?
  {
    match ColumnIndex(comp.columns, SubjectIdColumn)
    case None => ColumnMissing(SubjectIdColumn)
    case Some(ci) =>
      match ColumnIndex(ref.columns, SubjectColumn)
      case None => ColumnMissing(SubjectColumn)
      case Some(ri) => MergeOn(comp, ref, ci, ri)
  }

  /** With both identifier columns found: normalise them, merge, stop if nothing matched, extract. */
  function MergeOn(comp: Parsed, ref: Parsed, ci: nat, ri: nat): (o: Outcome)
    requires ci < |comp.columns| && ri < |ref.columns|
    ensures o.ColumnMissing? ==> o.name != SubjectIdColumn && o.name != SubjectColumn
  {
    var left := Normalized(comp, ci);
    var right := Normalized(ref, ri);
    var matched := JoinPairs(Keys(left, ci), Keys(right, ri));
    if matched == [] then NoMatchingSubjects
    else
      MergeRowsShaped(left, right, matched);
      Extract(left.columns, right.columns, matched, MergeRows(left, right, matched))
  }

  /** The merged rows of rectangular tables are as wide as the two headers. */
  lemma MergeRowsShaped(left: Parsed, right: Parsed, ps: seq<(nat, nat)>)
    requires forall p :: p in ps ==> p.0 < |left.rows| && p.1 < |right.rows|
    ensures Shaped(MergeRows(left, right, ps), left.columns, right.columns)
  {
    forall t | 0 <= t < |MergeRows(left, right, ps)|
      ensures |MergeRows(left, right, ps)[t].left| == |left.columns|
      ensures |MergeRows(left, right, ps)[t].right| == |right.columns|
    {
      MergeRowsAt(left, right, ps, t);
      assert ps[t] in ps;
      assert left.rows[ps[t].0] in left.rows && right.rows[ps[t].1] in right.rows;
    }
  }

  /** The whole front end: the checks in the order the script makes them, then `Compare`. */
  function Validate(results: FileState, reference: FileState): (o: Outcome)
    ensures results.Absent? ==> o == ResultsNotFound
    ensures results.Unreadable? ==> o == ResultsUnreadable
    ensures results.Readable? && IsEmpty(results.table) ==> o == ResultsEmpty
    ensures o.Analysed? ==> results.Readable? && reference.Readable? && |o.merged| > 0
  {
    match results
    case Absent => ResultsNotFound
    case Unreadable => ResultsUnreadable
    case Readable(comp) =>
      if IsEmpty(comp) then ResultsEmpty
      else
        match reference
        case Absent => ReferenceNotFound
        case Unreadable => ReferenceUnreadable
        case Readable(ref) => Compare(comp, CleanHeader(ref))
  }

  /** Past the two file checks, the run is `Compare` on the computed table and the cleaned reference table. */
  lemma ValidateReachesCompare(comp: Parsed, ref: Parsed)
    requires !IsEmpty(comp)
    ensures Validate(Readable(comp), Readable(ref)) == Compare(comp, CleanHeader(ref))
  {
  }

  /** A missing, unreadable or empty results table ends the run before the reference file is looked at. */
  lemma ResultsCheckedFirst(results: FileState, reference1: FileState, reference2: FileState)
    requires !results.Readable? || IsEmpty(results.table)
    ensures Validate(results, reference1) == Validate(results, reference2)
    ensures Validate(results, reference1).Fatal()
  {
  }

  /** With a usable results table, a missing or unreadable reference file ends the run with status 1. */
  lemma ReferenceChecked(comp: Parsed, reference: FileState)
    requires !IsEmpty(comp) && !reference.Readable?
    ensures Validate(Readable(comp), reference) == (if reference.Absent? then ReferenceNotFound else ReferenceUnreadable)
    ensures Validate(Readable(comp), reference).Fatal()
  {
  }

  /** The (computed row, reference row) pairs the merge produces, in merged-row order. */
  function Matched(comp: Parsed, ref: Parsed, ci: nat, ri: nat): (ps: seq<(nat, nat)>)
    requires ci < |comp.columns| && ri < |ref.columns|
    ensures forall p :: p in ps ==> p.0 < |comp.rows| && p.1 < |ref.rows|
  {
    JoinPairs(Ids(comp, ci), Ids(ref, ri))
  }

  lemma MatchedIsJoin(comp: Parsed, ref: Parsed, ci: nat, ri: nat)
    requires ci < |comp.columns| && ri < |ref.columns|
    ensures forall p :: p in Matched(comp, ref, ci, ri) <==> SameSubject(comp, ref, ci, ri, p.0, p.1)
  {
  }

  lemma MergeOnUnfolds(comp: Parsed, ref: Parsed, ci: nat, ri: nat)
    requires ci < |comp.columns| && ri < |ref.columns|
    ensures var ps := Matched(comp, ref, ci, ri);
      MergeOn(comp, ref, ci, ri) ==
        if ps == [] then NoMatchingSubjects
        else Extract(comp.columns, ref.columns, ps, MergeRows(Normalized(comp, ci), Normalized(ref, ri), ps))
  {
    NormalizedKeys(comp, ci);
    NormalizedKeys(ref, ri);
  }

  /** The run stops at "no matching subjects" exactly when the merge is empty; otherwise it reports the merge's pairs. */
  lemma CompareOutcome(comp: Parsed, ref: Parsed, ci: nat, ri: nat)
    requires ColumnIndex(comp.columns, SubjectIdColumn) == Some(ci)
    requires ColumnIndex(ref.columns, SubjectColumn) == Some(ri)
    ensures var o := Compare(comp, ref);
      && o == MergeOn(comp, ref, ci, ri)
      && (o.NoMatchingSubjects? <==> Matched(comp, ref, ci, ri) == [])
      && (o.Analysed? ==> o.matched == Matched(comp, ref, ci, ri))
  {
    MergeOnUnfolds(comp, ref, ci, ri);
  }

  /** The merge is empty exactly when no computed identifier equals a reference identifier. */
  lemma EmptyMergeIffNoSharedId(comp: Parsed, ref: Parsed, ci: nat, ri: nat)
    requires ci < |comp.columns| && ri < |ref.columns|
    ensures Matched(comp, ref, ci, ri) == [] <==> forall i: nat, j: nat :: !SameSubject(comp, ref, ci, ri, i, j)
  {
    var lk, rk := Ids(comp, ci), Ids(ref, ri);
    JoinPairsEmpty(lk, rk);
    if JoinPairs(lk, rk) == [] {
      forall i: nat, j: nat
        ensures !SameSubject(comp, ref, ci, ri, i, j)
      {
        if i < |lk| && j < |rk| {
          assert lk[i] != rk[j];
        }
      }
    } else {
      var i, j :| 0 <= i < |lk| && 0 <= j < |rk| && lk[i] == rk[j];
      assert SameSubject(comp, ref, ci, ri, i, j);
    }
  }

  /** The "no matching subjects" exit happens exactly when no computed identifier equals a reference identifier. */
  lemma NoMatchIffNoSharedId(comp: Parsed, ref: Parsed, ci: nat, ri: nat)
    requires ColumnIndex(comp.columns, SubjectIdColumn) == Some(ci)
    requires ColumnIndex(ref.columns, SubjectColumn) == Some(ri)
    ensures Compare(comp, ref).NoMatchingSubjects? <==> forall i: nat, j: nat :: !SameSubject(comp, ref, ci, ri, i, j)
  {
    CompareOutcome(comp, ref, ci, ri);
    EmptyMergeIffNoSharedId(comp, ref, ci, ri);
  }

  /**
   * The merge is exactly the relational inner join on normalised
   * identifiers: a (computed row, reference row) pair is merged if and only
   * if their identifiers agree.
   */
  lemma MergeIsInnerJoin(comp: Parsed, ref: Parsed, ci: nat, ri: nat)
    requires ColumnIndex(comp.columns, SubjectIdColumn) == Some(ci)
    requires ColumnIndex(ref.columns, SubjectColumn) == Some(ri)
    requires Compare(comp, ref).Analysed?
    ensures forall p :: p in Compare(comp, ref).matched <==> SameSubject(comp, ref, ci, ri, p.0, p.1)
  {
    CompareOutcome(comp, ref, ci, ri);
    MatchedIsJoin(comp, ref, ci, ri);
  }

  /**
   * Each merged row is made of the computed row and the reference row its
   * pair names, both with normalised identifiers, and `subject_id ==
   * Subject` holds in every merged row.
   */
  lemma MergedRowsPairSubjects(comp: Parsed, ref: Parsed, ci: nat, ri: nat)
    requires ColumnIndex(comp.columns, SubjectIdColumn) == Some(ci)
    requires ColumnIndex(ref.columns, SubjectColumn) == Some(ri)
    requires Compare(comp, ref).Analysed?
    ensures var o := Compare(comp, ref);
      && |o.merged| == |o.matched| > 0
      && forall t :: 0 <= t < |o.merged| ==>
           && o.matched[t].0 < |comp.rows| && o.matched[t].1 < |ref.rows|
           && o.merged[t].left == Normalized(comp, ci).rows[o.matched[t].0]
           && o.merged[t].right == Normalized(ref, ri).rows[o.matched[t].1]
           && |o.merged[t].left| == |comp.columns| && |o.merged[t].right| == |ref.columns|
           && o.merged[t].left[ci] == o.merged[t].right[ri] == Text(Ids(comp, ci)[o.matched[t].0])
  {
    CompareOutcome(comp, ref, ci, ri);
    MergeOnUnfolds(comp, ref, ci, ri);
    var ps := Matched(comp, ref, ci, ri);
    var o := Compare(comp, ref);
    MergedRowSubject(comp, ref, ci, ri, 0);
    forall t | 0 <= t < |o.merged|
      ensures o.matched[t].0 < |comp.rows| && o.matched[t].1 < |ref.rows|
      ensures o.merged[t].left == Normalized(comp, ci).rows[o.matched[t].0]
      ensures o.merged[t].right == Normalized(ref, ri).rows[o.matched[t].1]
      ensures |o.merged[t].left| == |comp.columns| && |o.merged[t].right| == |ref.columns|
      ensures o.merged[t].left[ci] == o.merged[t].right[ri] == Text(Ids(comp, ci)[o.matched[t].0])
    {
      MergedRowSubject(comp, ref, ci, ri, t);
    }
  }

  /** Merged row `t`, made of the two rows pair `t` names, carries the same identifier on both sides. */
  lemma MergedRowSubject(comp: Parsed, ref: Parsed, ci: nat, ri: nat, t: nat)
    requires ci < |comp.columns| && ri < |ref.columns|
    requires t < |Matched(comp, ref, ci, ri)|
    ensures var ps := Matched(comp, ref, ci, ri);
      var rows := MergeRows(Normalized(comp, ci), Normalized(ref, ri), ps);
      && |rows| == |ps|
      && ps[t].0 < |comp.rows| && ps[t].1 < |ref.rows|
      && rows[t].left == Normalized(comp, ci).rows[ps[t].0]
      && rows[t].right == Normalized(ref, ri).rows[ps[t].1]
      && |rows[t].left| == |comp.columns| && |rows[t].right| == |ref.columns|
      && rows[t].left[ci] == rows[t].right[ri] == Text(Ids(comp, ci)[ps[t].0])
  {
    var ps := Matched(comp, ref, ci, ri);
    var left, right := Normalized(comp, ci), Normalized(ref, ri);
    assert ps[t] in ps;
    MergeRowsAt(left, right, ps, t);
    MatchedIsJoin(comp, ref, ci, ri);
    assert comp.rows[ps[t].0] in comp.rows && ref.rows[ps[t].1] in ref.rows;
  }

  /**
   * `x_suvr`/`y_suvr` and `x_cl`/`y_cl` each hold one entry per merged row,
   * entry `t` of each taken from merged row `t`; the subject count reported
   * is the number of merged rows.
   */
  lemma PairedColumnsAligned(comp: Parsed, ref: Parsed)
    requires Compare(comp, ref).Analysed?
    ensures var o := Compare(comp, ref);
      && |o.suvr.computed| == |o.suvr.reference| == |o.merged|
      && |o.centiloid.computed| == |o.centiloid.reference| == |o.merged|
      && Shaped(o.merged, comp.columns, ref.columns)
      && IsColumn(o.suvr.computed, o.merged, comp.columns, ref.columns, SuvrColumn)
      && IsColumn(o.suvr.reference, o.merged, comp.columns, ref.columns, RefSuvrColumn)
      && IsColumn(o.centiloid.computed, o.merged, comp.columns, ref.columns, CentiloidColumn)
      && IsColumn(o.centiloid.reference, o.merged, comp.columns, ref.columns, RefCentiloidColumn)
  {
  }

  /** An empty reference table is not rejected on loading; it ends in "no matching subjects". */
  lemma EmptyReferenceFindsNoSubjects(comp: Parsed, ref: Parsed)
    requires !IsEmpty(comp) && |ref.rows| == 0
    requires ColumnIndex(comp.columns, SubjectIdColumn).Some?
    requires ColumnIndex(StrippedNames(ref.columns), SubjectColumn).Some?
    ensures Validate(Readable(comp), Readable(ref)) == NoMatchingSubjects
  {
    var ci := ColumnIndex(comp.columns, SubjectIdColumn).value;
    var cleaned := CleanHeader(ref);
    var ri := ColumnIndex(cleaned.columns, SubjectColumn).value;
    NoRowsNoPairs(comp, cleaned, ci, ri);
    CompareOutcome(comp, cleaned, ci, ri);
    ValidateReachesCompare(comp, ref);
  }

  lemma NoRowsNoPairs(comp: Parsed, ref: Parsed, ci: nat, ri: nat)
    requires ci < |comp.columns| && ri < |ref.columns| && |ref.rows| == 0
    ensures Matched(comp, ref, ci, ri) == []
  {
    assert Ids(ref, ri) == [];
    JoinPairsNoRight(Ids(comp, ci));
  }

  /** With each identifier at most once per table, the merge has one row per shared identifier. */
  lemma UniqueIdsCount(comp: Parsed, ref: Parsed, ci: nat, ri: nat)
    requires ColumnIndex(comp.columns, SubjectIdColumn) == Some(ci)
    requires ColumnIndex(ref.columns, SubjectColumn) == Some(ri)
    requires Distinct(Ids(comp, ci)) && Distinct(Ids(ref, ri))
    requires Compare(comp, ref).Analysed?
    ensures |Compare(comp, ref).merged| == |Shared(Ids(comp, ci), Ids(ref, ri))|
  {
    CompareOutcome(comp, ref, ci, ri);
    UniqueKeysCount(Ids(comp, ci), Ids(ref, ri));
  }

  /** `main` up to the correlation: two data frames loaded, cleaned in place, merged, and the paired columns taken. */
  method RunValidation(results: FileState, reference: FileState) returns (o: Outcome)
    ensures o == Validate(results, reference)
  {
    if results.Absent? {
      return ResultsNotFound;
    }
    if results.Unreadable? {
      return ResultsUnreadable;
    }
    var comp := new DataFrame.Load(results.table);
    if comp.Empty() {
      return ResultsEmpty;
    }
    if reference.Absent? {
      return ReferenceNotFound;
    }
    if reference.Unreadable? {
      return ReferenceUnreadable;
    }
    var ref := new DataFrame.Load(reference.table);
    ref.StripColumnNames();
    assert ref.Contents() == CleanHeader(reference.table);
    var ci := ColumnIndex(comp.columns, SubjectIdColumn);
    if ci.None? {
      return ColumnMissing(SubjectIdColumn);
    }
    comp.NormalizeIds(ci.value);
    var ri := ColumnIndex(ref.columns, SubjectColumn);
    if ri.None? {
      return ColumnMissing(SubjectColumn);
    }
    ref.NormalizeIds(ri.value);
    var left, right := comp.Contents(), ref.Contents();
    var matched := JoinPairs(Keys(left, ci.value), Keys(right, ri.value));
    if matched == [] {
      return NoMatchingSubjects;
    }
    MergeRowsShaped(left, right, matched);
    o := Extract(left.columns, right.columns, matched, MergeRows(left, right, matched));
  }
}
