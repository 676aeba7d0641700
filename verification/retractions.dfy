/** The retraction lookup table of `ash/ash.py`: dataset rows grouped by the
    cleaned DOI of the paper they retract, built lazily on first access.

    `ash/ash.py` carries its own copies of the pattern list, `BAD_DOIS`,
    `DOI_FIXES`, `clean_doi` and `Paper.text_to_dois`; they are textually
    the same as those of `ash/doi.py`, so this model uses the one definition
    in module `Doi` for both. */
module Retractions {
  import opened Wrappers
  import Strings
  import Doi

  /** One dataset row: column name to cell text. */
  type Row = map<string, string>

  /** Cleaned DOI to the rows that retract it, in dataset order. */
  type Table = map<string, seq<Row>>

  /** The column holding the retracted paper's DOI. */
  const DoiColumn: string := "OriginalPaperDOI"

  /** `row.get("OriginalPaperDOI", "")`. */
  function RawDoi(row: Row): string {
    if DoiColumn in row then row[DoiColumn] else ""
  }

  /** The key a row is filed under, when it has a usable one. */
  function RowKey(row: Row): Option<string> {
    var doi := Doi.Clean(RawDoi(row));
    if doi in Doi.BadDois then None else Some(doi)
  }

  /** A row together with the key it is filed under. */
  type Entry = (Option<string>, Row)

  /** Each row paired with its key, in dataset order. */
  function Keyed(rows: seq<Row>): (es: seq<Entry>)
    ensures |es| == |rows|
    ensures forall i :: 0 <= i < |rows| ==> es[i] == (RowKey(rows[i]), rows[i])
  {
    seq(|rows|, i requires 0 <= i < |rows| => (RowKey(rows[i]), rows[i]))
  }

  /** One turn of the row loop: skip a bad DOI, else append the row to its
      DOI's list (a `defaultdict(list)` starts a missing list empty). */
  function AddEntry(table: Table, e: Entry): Table {
    match e.0
    case None => table
    case Some(doi) => table[doi := (if doi in table then table[doi] else []) + [e.1]]
  }

  /** The table the row loop leaves behind, starting from an empty one. */
  function Group(es: seq<Entry>): Table
    decreases |es|
  {
    if es == [] then map[] else AddEntry(Group(es[..|es| - 1]), es[|es| - 1])
  }

  /** The table `_build_data` builds from `rows`. */
  function BuildTable(rows: seq<Row>): Table {
    Group(Keyed(rows))
  }

  /** Reference definition: the rows filed under `doi`, in order. */
  function Under(es: seq<Entry>, doi: string): (r: seq<Row>)
    ensures forall row :: row in r <==> (Some(doi), row) in es
    decreases |es|
  {
    if es == [] then []
    else
      var last := es[|es| - 1];
      assert es == es[..|es| - 1] + [last];
      Under(es[..|es| - 1], doi) + (if last.0 == Some(doi) then [last.1] else [])
  }

  /** The table holds a key exactly when some row is filed under it, and
      then exactly the rows filed under it, in order: nothing is ever
      overwritten or dropped. */
  lemma {:induction false} GroupSpec(es: seq<Entry>)
    ensures forall doi :: doi in Group(es) <==> Under(es, doi) != []
    ensures forall doi :: doi in Group(es) ==> Group(es)[doi] == Under(es, doi)
    decreases |es|
  {
    if es != [] {
      var init := es[..|es| - 1];
      var last := es[|es| - 1];
      GroupSpec(init);
      forall doi
        ensures doi in Group(es) <==> Under(es, doi) != []
        ensures doi in Group(es) ==> Group(es)[doi] == Under(es, doi)
      {
        if last.0 == Some(doi) {
          assert Under(es, doi) == Under(init, doi) + [last.1];
        } else {
          assert Under(es, doi) == Under(init, doi);
        }
      }
    }
  }

  /** What `Under` means for the keyed rows of a dataset: the rows, in
      dataset order, whose cleaned DOI is `doi`. */
  function RowsFor(rows: seq<Row>, doi: string): (r: seq<Row>)
    ensures forall row :: row in r <==> row in rows && RowKey(row) == Some(doi)
  {
    forall row
      ensures (Some(doi), row) in Keyed(rows) <==> row in rows && RowKey(row) == Some(doi)
    {
      PairedWith(rows, Keyed(rows), RowKey, Some(doi), row);
    }
    Under(Keyed(rows), doi)
  }

  /** A list of items each paired with its key holds the pair `(k, x)`
      exactly when `x` is one of the items and its key is `k`. */
  lemma PairedWith<T, K>(xs: seq<T>, es: seq<(K, T)>, key: T -> K, k: K, x: T)
    requires |es| == |xs| && forall i :: 0 <= i < |xs| ==> es[i] == (key(xs[i]), xs[i])
    ensures (k, x) in es <==> x in xs && key(x) == k
  {
    if x in xs {
      var i :| 0 <= i < |xs| && xs[i] == x;
      assert es[i] == (key(x), x);
    }
  }

  /** `_build_data` files each row under its cleaned DOI, in dataset order,
      and keeps a key exactly when some row is filed under it. */
  lemma BuildTableSpec(rows: seq<Row>)
    ensures forall doi :: doi in BuildTable(rows) <==> RowsFor(rows, doi) != []
    ensures forall doi :: doi in BuildTable(rows) ==> BuildTable(rows)[doi] == RowsFor(rows, doi)
  {
    GroupSpec(Keyed(rows));
  }

  /** A row is filed under a key only when the key is its cleaned DOI and
      not a bad one. */
  lemma RowKeySome(row: Row, doi: string)
    requires RowKey(row) == Some(doi)
    ensures doi == Doi.Clean(RawDoi(row)) && doi !in Doi.BadDois
  {
  }

  /** Every key is the cleaned DOI of some row and never a bad DOI; every
      record under it is a dataset row filed under that key. */
  lemma TableKeys(rows: seq<Row>)
    ensures forall doi :: doi in BuildTable(rows) ==>
      && doi !in Doi.BadDois
      && (exists row :: row in rows && Doi.Clean(RawDoi(row)) == doi)
      && (forall row :: row in BuildTable(rows)[doi] ==> row in rows && RowKey(row) == Some(doi))
  {
    BuildTableSpec(rows);
    forall doi | doi in BuildTable(rows)
      ensures doi !in Doi.BadDois
      ensures exists row :: row in rows && Doi.Clean(RawDoi(row)) == doi
    {
      var row := RowsFor(rows, doi)[0];
      assert row in RowsFor(rows, doi);
      RowKeySome(row, doi);
    }
  }

  /** A row without the DOI column is read as `""` and skipped. */
  lemma MissingColumnSkipped(row: Row)
    requires DoiColumn !in row
    ensures RowKey(row) == None
  {
    Doi.CleanSpec("");
  }

  /** The entries that have a key, in order. */
  function Kept(es: seq<Entry>): (r: seq<Entry>)
    ensures forall e :: e in r <==> e in es && e.0.Some?
    decreases |es|
  {
    if es == [] then []
    else
      var last := es[|es| - 1];
      assert es == es[..|es| - 1] + [last];
      Kept(es[..|es| - 1]) + (if last.0.Some? then [last] else [])
  }

  /** Reading one more row is one more turn of the loop. */
  lemma GroupStep(rows: seq<Row>, i: nat)
    requires i < |rows|
    ensures Group(Keyed(rows[..i + 1])) == AddEntry(Group(Keyed(rows[..i])), (RowKey(rows[i]), rows[i]))
  {
    var es := Keyed(rows[..i + 1]);
    assert es[..i] == Keyed(rows[..i]);
    assert es[i] == (RowKey(rows[i]), rows[i]);
  }

  /** `_build_data`'s row loop over already-parsed rows, into an empty table. */
  method LoadRows(rows: seq<Row>) returns (table: Table)
    ensures table == BuildTable(rows)
  {
    table := map[];
    for i := 0 to |rows|
      invariant table == Group(Keyed(rows[..i]))
    {
      GroupStep(rows, i);
      var doi := Doi.Clean(RawDoi(rows[i]));
      if doi in Doi.BadDois {
        continue;
      }
      var records := if doi in table then table[doi] else [];
      table := table[doi := records + [rows[i]]];
    }
    assert rows[..|rows|] == rows;
  }

  /** The lazily built database: the dataset it reads and the table built so
      far (empty until the first successful access). */
  datatype Database = Database(source: seq<Row>, cache: Table)

  /** `RetractionDatabase(path)`: nothing is read yet. */
  function Open(source: seq<Row>): (db: Database)
    ensures db.source == source && db.cache == map[]
  {
    Database(source, map[])
  }

  /** Why an access to the table fails: `random.choice` on the values of an
      empty table raises `IndexError`. */
  datatype LoadError = EmptyDatabase

  /** A successful access: the table, the database afterwards, and the keys
      `validate_dois` warned about during this access (none when the table
      was already built). */
  datatype Loaded = Loaded(table: Table, db: Database, warned: set<string>)

  /** The keys of `table` in which no pattern finds a DOI. */
  function Warnings(table: Table, pats: seq<Doi.Matcher>): set<string> {
    set d | d in table && !Doi.AnyTruthy(Doi.TextToDois(d, pats))
  }

  /** The `data` property. While the cache is empty it builds the table from
      the dataset; an empty result makes `random.choice` fail, which leaves
      the cache empty so the next access builds again. A non-empty result is
      kept and its keys are validated (the nested `self.dois` reads the
      freshly filled cache and does not build a second time). */
  function Data(db: Database, pats: seq<Doi.Matcher>): Result<Loaded, LoadError> {
    if |db.cache| == 0 then
      var table := BuildTable(db.source);
      if |table| == 0 then Failure(EmptyDatabase)
      else Success(Loaded(table, Database(db.source, table), Warnings(table, pats)))
    else Success(Loaded(db.cache, db, {}))
  }

  /** The `dois` property: the key set of `data`. */
  function Dois(db: Database, pats: seq<Doi.Matcher>): (r: Result<(set<string>, Database), LoadError>)
    ensures r.Success? <==> Data(db, pats).Success?
    ensures r.Success? ==>
      r.value.0 == Data(db, pats).value.table.Keys && r.value.1 == Data(db, pats).value.db
  {
    match Data(db, pats)
    case Failure(e) => Failure(e)
    case Success(l) => Success((l.table.Keys, l.db))
  }

  /** A freshly opened database yields the table built from its rows, or
      fails exactly when no row has a usable DOI. */
  lemma DataOnOpen(source: seq<Row>, pats: seq<Doi.Matcher>)
    ensures Data(Open(source), pats).Failure? <==> Kept(Keyed(source)) == []
    ensures Data(Open(source), pats).Success? ==>
      var l := Data(Open(source), pats).value;
      l.table == BuildTable(source) && l.db.cache == l.table
      && l.warned == Warnings(BuildTable(source), pats)
  {
    var es := Keyed(source);
    var table := Group(es);
    GroupSpec(es);
    if Kept(es) != [] {
      var e := Kept(es)[0];
      assert e in Kept(es);
      assert e.1 in Under(es, e.0.value);
    }
    if |table| != 0 {
      var k :| k in table;
      assert (Some(k), Under(es, k)[0]) in Kept(es);
    }
  }

  /** `dois` on a freshly opened database: exactly the cleaned DOIs, other
      than the bad ones, of the dataset's rows. It fails exactly when no row
      has such a DOI. */
  lemma DoisOnOpen(source: seq<Row>, pats: seq<Doi.Matcher>)
    ensures Dois(Open(source), pats).Failure? <==> forall row :: row in source ==> RowKey(row).None?
    ensures Dois(Open(source), pats).Success? ==>
      forall doi :: doi in Dois(Open(source), pats).value.0 <==> exists row :: row in source && RowKey(row) == Some(doi)
  {
    var t := BuildTable(source);
    forall doi
      ensures doi in t <==> exists row :: row in source && RowKey(row) == Some(doi)
    {
      KeyOfSomeRow(source, doi);
    }
    if exists row :: row in source && RowKey(row).Some? {
      var row :| row in source && RowKey(row).Some?;
      assert RowKey(row).value in t;
    }
    if |t| != 0 {
      var k :| k in t;
    }
  }

  /** The table has a key exactly when some row is filed under it. */
  lemma KeyOfSomeRow(source: seq<Row>, doi: string)
    ensures doi in BuildTable(source) <==> exists row :: row in source && RowKey(row) == Some(doi)
  {
    BuildTableSpec(source);
    if doi in BuildTable(source) {
      var row := RowsFor(source, doi)[0];
      assert row in RowsFor(source, doi);
    }
  }

  /** Once built, the table is returned as it is on every later access,
      without rebuilding and without warning again. */
  lemma DataCached(db: Database, pats: seq<Doi.Matcher>)
    requires Data(db, pats).Success?
    ensures var l := Data(db, pats).value;
      Data(l.db, pats) == Success(Loaded(l.table, l.db, {}))
  {
  }

  /** An access only ever fills the cache with the table built from the
      dataset, so every later access sees that table. */
  lemma DataIsBuildTable(db: Database, pats: seq<Doi.Matcher>)
    requires db.cache == map[] || db.cache == BuildTable(db.source)
    requires Data(db, pats).Success?
    ensures Data(db, pats).value.table == BuildTable(db.source)
    ensures Data(db, pats).value.db == Database(db.source, BuildTable(db.source))
  {
  }

  /** `validate_dois(self.dois)` as the loop writes it, over the keys in
      whatever order the set yields them: it warns for exactly the keys the
      lazy build reports. */
  method ValidateDois(dois: seq<string>, pats: seq<Doi.Matcher>) returns (warned: seq<string>)
    ensures warned == Doi.Unmatched(dois, pats)
    ensures forall d :: d in warned <==> d in dois && !Doi.AnyTruthy(Doi.TextToDois(d, pats))
  {
    warned := Doi.ValidateCollection(dois, pats);
  }

  /** The warnings of a lazy build are those `validate_dois` prints for any
      listing of the keys. */
  lemma WarningsAreValidateDois(table: Table, order: seq<string>, pats: seq<Doi.Matcher>)
    requires forall d :: d in order <==> d in table
    ensures forall d :: d in Warnings(table, pats) <==> d in Doi.Unmatched(order, pats)
  {
  }
}
