/**
 * Tables as the validation scripts hold them after `pd.read_csv`: named
 * columns over rectangular rows of typed cells, the identifier
 * normalisation `astype(str).str.strip()`, the header clean-up
 * `[c.strip() for c in df.columns]`, and the data frame object those two
 * steps update in place.
 */
module Frames {
  import opened Options
  import opened PyText

  /** One cell as `read_csv` types it. */
  datatype Cell =
    | Text(s: string)
    | Int(i: int)
    | Float(x: real, shown: string)  // `shown` is what Python's str() prints for the float
    | Bool(b: bool)
    | Missing                        // an empty field, read as NaN

  /** `astype(str)` of one cell. */
  function AsText(c: Cell): string {
    match c
    case Text(s) => s
    case Int(i) => IntText(i)
    case Float(_, shown) => shown
    case Bool(b) => if b then "True" else "False"
    case Missing => "nan"
  }

  /** The join key of an identifier cell: its text with surrounding whitespace removed. */
  function NormalizeId(c: Cell): (k: string)
    ensures Trimmed(k) && StripsTo(AsText(c), k)
  {
    Strip(AsText(c))
  }

  /** Normalising an identifier that is already normalised changes nothing. */
  lemma NormalizeIdIdempotent(c: Cell)
    ensures NormalizeId(Text(NormalizeId(c))) == NormalizeId(c)
  {
    StripIdempotent(AsText(c));
  }

  /** An integer-typed identifier becomes its decimal text, with nothing stripped. */
  lemma NormalizeIntId(i: int)
    ensures NormalizeId(Int(i)) == IntText(i)
  {
    StripNoSpace(IntText(i));
  }

  /** Identifiers typed with and without incidental whitespace around them meet on the same key. */
  lemma PaddedIdsMeet(p: string, id: string, q: string)
    requires AllSpace(p) && AllSpace(q) && Trimmed(id)
    ensures NormalizeId(Text(p + id + q)) == NormalizeId(Text(id)) == id
  {
    StripUnique(p, id, q);
    assert [] + id + [] == id;
    StripUnique([], id, []);
  }

  datatype Table = Table(columns: seq<string>, rows: seq<seq<Cell>>)

  /** Every row has one cell per column, as `read_csv` guarantees. */
  predicate Rectangular(t: Table) {
    forall r :: r in t.rows ==> |r| == |t.columns|
  }

  /** A table as `read_csv` returns it. */
  type Parsed = t: Table | Rectangular(t) witness Table([], [])

  /** pandas' `DataFrame.empty`: one of the two axes has length zero. */
  predicate IsEmpty(t: Table) {
    |t.rows| == 0 || |t.columns| == 0
  }

  /** What probing and reading one input file gives. */
  datatype FileState =
    | Absent              // os.path.exists is false
    | Unreadable          // read_csv raises
    | Readable(table: Parsed)

  /** The first position of `name` in `cols`. */
  function IndexOf(cols: seq<string>, name: string): (i: nat)
    requires name in cols
    ensures i < |cols| && cols[i] == name && name !in cols[..i]
  {
    if cols[0] == name then 0 else
      var j := IndexOf(cols[1..], name);
      assert cols[..j + 1] == [cols[0]] + cols[1..][..j];
      j + 1
  }

  /**
   * Selecting a column by name, `df[name]`: it yields one column only when
   * the name occurs exactly once; otherwise the script fails (a `KeyError`
   * for an absent name, a two-column frame without `.str` for a repeated one).
   */
  function ColumnIndex(cols: seq<string>, name: string): (r: Option<nat>)
    ensures r.Some? <==> multiset(cols)[name] == 1
    ensures r.Some? ==> r.value < |cols| && cols[r.value] == name
  {
    if multiset(cols)[name] == 1 then Some(IndexOf(cols, name)) else None
  }

  /** The reference table's header clean-up: every name stripped, order and count kept. */
  function StrippedNames(cols: seq<string>): (r: seq<string>)
    ensures |r| == |cols|
    ensures forall i :: 0 <= i < |r| ==> Trimmed(r[i]) && StripsTo(cols[i], r[i])
  {
    seq(|cols|, i requires 0 <= i < |cols| => Strip(cols[i]))
  }

  /** The column `c` of `t` after `t[name] = t[name].astype(str).str.strip()`. */
  function Normalized(t: Parsed, c: nat): (u: Parsed)
    requires c < |t.columns|
    ensures u.columns == t.columns && |u.rows| == |t.rows|
    ensures forall r :: 0 <= r < |u.rows| ==>
      |u.rows[r]| == |t.rows[r]| && u.rows[r][c] == Text(NormalizeId(t.rows[r][c]))
      && forall k :: 0 <= k < |u.rows[r]| && k != c ==> u.rows[r][k] == t.rows[r][k]
  {
    var rows := seq(|t.rows|, r requires 0 <= r < |t.rows| =>
      assert t.rows[r] in t.rows;
      t.rows[r][c := Text(NormalizeId(t.rows[r][c]))]);
    Table(t.columns, rows)
  }

  /** The texts of column `c`, row by row: the keys the merge compares. */
  function Keys(t: Parsed, c: nat): seq<string>
    requires c < |t.columns|
  {
    seq(|t.rows|, r requires 0 <= r < |t.rows| => assert t.rows[r] in t.rows; AsText(t.rows[r][c]))
  }

  /** The normalised identifiers of column `c`, row by row. */
  function Ids(t: Parsed, c: nat): seq<string>
    requires c < |t.columns|
  {
    seq(|t.rows|, r requires 0 <= r < |t.rows| => assert t.rows[r] in t.rows; NormalizeId(t.rows[r][c]))
  }

  /** After the in-place normalisation, the keys the merge compares are the normalised identifiers. */
  lemma NormalizedKeys(t: Parsed, c: nat)
    requires c < |t.columns|
    ensures Keys(Normalized(t, c), c) == Ids(t, c)
  {
  }

  /** A pandas data frame whose column labels and columns the scripts reassign in place. */
  class DataFrame {
    var columns: seq<string>
    var rows: seq<seq<Cell>>

    ghost predicate Valid()
      reads this
    {
      Rectangular(Table(columns, rows))
    }

    function Contents(): (t: Parsed)
      reads this
      requires Valid()
    {
      Table(columns, rows)
    }

    /** `pd.read_csv`: a fresh frame holding the parsed table. */
    constructor Load(t: Parsed)
      ensures Valid() && Contents() == t
    {
      columns := t.columns;
      rows := t.rows;
    }

    /** `df.empty` */
    function Empty(): bool
      reads this
      requires Valid()
    {
      IsEmpty(Contents())
    }

    /** `df.columns = [c.strip() for c in df.columns]` */
    method StripColumnNames()
      requires Valid()
      modifies this
      ensures Valid()
      ensures columns == StrippedNames(old(columns)) && rows == old(rows)
    {
      columns := StrippedNames(columns);
    }

    /** `df[name] = df[name].astype(str).str.strip()` for the column at position `c`. */
    method NormalizeIds(c: nat)
      requires Valid() && c < |columns|
      modifies this
      ensures Valid()
      ensures Contents() == Normalized(old(Contents()), c)
    {
      rows := Normalized(Contents(), c).rows;
    }
  }
}
