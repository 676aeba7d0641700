/** `Paper` of `ash/ash.py`: the DOIs found in a paper's text, checked
    against the retraction table, as the printed report and as the JSON
    membership map. */
module Papers {
  import opened Wrappers
  import Doi
  import Retractions

  type Row = Retractions.Row
  type Table = Retractions.Table

  /** A paper under analysis: the DOIs found in its text, in the order
      found, duplicates kept. */
  datatype Paper = Paper(dois: seq<string>)

  /** `Paper(data)` once the document's text is extracted: `extract_dois`
      runs `text_to_dois` on it. */
  function FromText(text: string, pats: seq<Doi.Matcher>): Paper {
    Paper(Doi.TextToDois(text, pats))
  }

  /** The retraction columns a notice line reads, in the order it reads
      them. */
  const NatureColumn: string := "RetractionNature"
  const DateColumn: string := "RetractionDate"
  const NoticeColumn: string := "RetractionDOI"

  /** Where a notice DOI resolves. */
  const ResolverBase: string := "https://doi.org/"

  /** What a notice line tells about one retraction record. */
  datatype Notice = Notice(nature: string, date: string, url: string)

  /** One printed line of `report`, in order: a verdict per DOI, a comment
      per retraction record of a zombie, and at the end the record list of
      each zombie. */
  datatype ReportLine =
    | Verdict(doi: string, zombie: bool)
    | Comment(notice: Notice)
    | Dump(records: seq<Row>)

  /** Why a report fails: a record lacks a column (`KeyError`), or the
      table could not be loaded. */
  datatype ReportError = MissingColumn(column: string) | NoData(cause: Retractions.LoadError)

  /** The fields of one comment, read in the order the tuple is built. */
  function NoticeOf(record: Row): (r: Result<Notice, ReportError>)
    ensures r.Success? <==> HasNoticeColumns(record)
    ensures r.Success? ==>
      && r.value.nature == record[NatureColumn] && r.value.date == record[DateColumn]
      && r.value.url == ResolverBase + record[NoticeColumn]
    ensures r.Failure? ==> r.error == MissingColumn(FirstMissing(record))
  {
    if NatureColumn !in record then Failure(MissingColumn(NatureColumn))
    else if DateColumn !in record then Failure(MissingColumn(DateColumn))
    else if NoticeColumn !in record then Failure(MissingColumn(NoticeColumn))
    else Success(Notice(record[NatureColumn], record[DateColumn], ResolverBase + record[NoticeColumn]))
  }

  /** The first of the three columns, in reading order, that `record`
      lacks. */
  function FirstMissing(record: Row): string {
    if NatureColumn !in record then NatureColumn
    else if DateColumn !in record then DateColumn
    else NoticeColumn
  }

  /** The record carries the three columns a notice reads. */
  predicate HasNoticeColumns(record: Row) {
    NatureColumn in record && DateColumn in record && NoticeColumn in record
  }

  /** Every record carries the three columns a notice reads. */
  predicate Complete(records: seq<Row>) {
    forall k :: 0 <= k < |records| ==> HasNoticeColumns(records[k])
  }

  /** The comments for a zombie's records, in record order; the first
      incomplete record stops the report. */
  function Comments(records: seq<Row>): (r: Result<seq<ReportLine>, ReportError>)
    ensures r.Success? <==> Complete(records)
    ensures r.Success? ==> r.value == NoticeLines(records)
    decreases |records|
  {
    if records == [] then Success([])
    else
      CompleteCons(records);
      match NoticeOf(records[0])
      case Failure(e) => Failure(e)
      case Success(n) =>
        match Comments(records[1..])
        case Failure(e) => Failure(e)
        case Success(rest) =>
          NoticeLinesCons(records);
          Success([Comment(n)] + rest)
  }

  lemma CompleteCons(records: seq<Row>)
    requires records != []
    ensures Complete(records) <==> HasNoticeColumns(records[0]) && Complete(records[1..])
  {
    if HasNoticeColumns(records[0]) && Complete(records[1..]) {
      forall k | 0 <= k < |records|
        ensures HasNoticeColumns(records[k])
      {
        if k > 0 {
          assert records[k] == records[1..][k - 1];
        }
      }
    }
  }

  lemma NoticeLinesCons(records: seq<Row>)
    requires records != [] && Complete(records)
    ensures Complete(records[1..])
    ensures NoticeLines(records) == [Comment(NoticeOf(records[0]).value)] + NoticeLines(records[1..])
  {
    CompleteCons(records);
  }

  /** The lines for one DOI of the paper. */
  function Block(doi: string, table: Table): Result<seq<ReportLine>, ReportError> {
    if doi !in table then Success([Verdict(doi, false)])
    else
      match Comments(table[doi])
      case Failure(e) => Failure(e)
      case Success(cs) => Success([Verdict(doi, true)] + cs)
  }

  /** The lines of the main loop, DOI by DOI in paper order. */
  function Body(dois: seq<string>, table: Table): Result<seq<ReportLine>, ReportError>
    decreases |dois|
  {
    if dois == [] then Success([])
    else
      match Block(dois[0], table)
      case Failure(e) => Failure(e)
      case Success(b) =>
        match Body(dois[1..], table)
        case Failure(e) => Failure(e)
        case Success(rest) => Success(b + rest)
  }

  /** The zombies: the paper's DOIs found in the table, in paper order,
      duplicates kept. */
  function Zombies(dois: seq<string>, table: Table): (r: seq<string>)
    ensures |r| <= |dois|
    ensures forall d :: d in r <==> d in dois && d in table
    decreases |dois|
  {
    if dois == [] then []
    else (if dois[0] in table then [dois[0]] else []) + Zombies(dois[1..], table)
  }

  /** The closing loop: each zombie's record list. */
  function Dumps(zombies: seq<string>, table: Table): (r: seq<ReportLine>)
    requires forall z :: z in zombies ==> z in table
    ensures |r| == |zombies|
    ensures forall k :: 0 <= k < |zombies| ==> r[k] == Dump(table[zombies[k]])
  {
    seq(|zombies|, k requires 0 <= k < |zombies| => Dump(table[zombies[k]]))
  }

  /** The outcome of a successful `report`: its lines, the database
      afterwards, and the keys `validate_dois` warned about when the
      report's first lookup built the table. */
  datatype Printed = Printed(lines: seq<ReportLine>, db: Retractions.Database, warned: set<string>)

  /** The outcome of a failed `report`: why it stopped, and the database
      and warnings as the exception leaves them. A `KeyError` is raised
      after the table is built, so the cache it filled survives. */
  datatype Aborted = Aborted(error: ReportError, db: Retractions.Database, warned: set<string>)

  /** `Paper.report`. A paper without DOIs never touches the database; any
      other loads the table on its first membership test. */
  function Report(paper: Paper, db: Retractions.Database, pats: seq<Doi.Matcher>): Result<Printed, Aborted> {
    if paper.dois == [] then Success(Printed([], db, {}))
    else
      match Retractions.Data(db, pats)
      case Failure(e) => Failure(Aborted(NoData(e), db, {}))
      case Success(l) =>
        match Body(paper.dois, l.table)
        case Failure(e) => Failure(Aborted(e, l.db, l.warned))
        case Success(body) =>
          Success(Printed(body + Dumps(Zombies(paper.dois, l.table), l.table), l.db, l.warned))
  }

  /** The outcome of `json_report`: the membership map, the database
      afterwards, and the keys warned about if the table was built. */
  datatype Answered = Answered(values: map<string, bool>, db: Retractions.Database, warned: set<string>)

  /** `Paper.json_report`: each distinct DOI of the paper mapped to whether
      it is in the table. */
  function JsonReport(paper: Paper, db: Retractions.Database, pats: seq<Doi.Matcher>)
    : Result<Answered, ReportError>
  {
    if paper.dois == [] then Success(Answered(map[], db, {}))
    else
      match Retractions.Data(db, pats)
      case Failure(e) => Failure(NoData(e))
      case Success(l) =>
        Success(Answered(map d | d in paper.dois :: d in l.table, l.db, l.warned))
  }

  // Selecting lines of one kind.

  predicate IsVerdict(line: ReportLine) { line.Verdict? }
  predicate IsComment(line: ReportLine) { line.Comment? }
  predicate IsDump(line: ReportLine) { line.Dump? }

  /** The lines satisfying `p`, in order. */
  function Select(lines: seq<ReportLine>, p: ReportLine -> bool): (r: seq<ReportLine>)
    ensures |r| <= |lines|
    ensures forall line :: line in r <==> line in lines && p(line)
    decreases |lines|
  {
    if lines == [] then []
    else (if p(lines[0]) then [lines[0]] else []) + Select(lines[1..], p)
  }

  lemma {:induction false} SelectAppend(a: seq<ReportLine>, b: seq<ReportLine>, p: ReportLine -> bool)
    ensures Select(a + b, p) == Select(a, p) + Select(b, p)
    decreases |a|
  {
    if a != [] {
      assert (a + b)[1..] == a[1..] + b;
      SelectAppend(a[1..], b, p);
    } else {
      assert a + b == b;
    }
  }

  lemma {:induction false} SelectAll(lines: seq<ReportLine>, p: ReportLine -> bool)
    requires forall k :: 0 <= k < |lines| ==> p(lines[k])
    ensures Select(lines, p) == lines
    decreases |lines|
  {
    if lines != [] {
      SelectAll(lines[1..], p);
    }
  }

  lemma {:induction false} SelectNone(lines: seq<ReportLine>, p: ReportLine -> bool)
    requires forall k :: 0 <= k < |lines| ==> !p(lines[k])
    ensures Select(lines, p) == []
    decreases |lines|
  {
    if lines != [] {
      SelectNone(lines[1..], p);
    }
  }

  /** Reference definitions of what each kind of line should say. */

  /** One verdict per DOI, in paper order. */
  function ExpectedVerdicts(dois: seq<string>, table: Table): (r: seq<ReportLine>)
    ensures |r| == |dois|
    ensures forall k :: 0 <= k < |dois| ==> r[k] == Verdict(dois[k], dois[k] in table)
  {
    seq(|dois|, k requires 0 <= k < |dois| => Verdict(dois[k], dois[k] in table))
  }

  /** The notice of each record, in record order. */
  function NoticeLines(records: seq<Row>): (r: seq<ReportLine>)
    requires Complete(records)
    ensures |r| == |records|
    ensures forall k :: 0 <= k < |records| ==>
      && r[k].Comment?
      && r[k].notice.nature == records[k][NatureColumn]
      && r[k].notice.date == records[k][DateColumn]
      && r[k].notice.url == ResolverBase + records[k][NoticeColumn]
  {
    seq(|records|, k requires 0 <= k < |records| && HasNoticeColumns(records[k]) =>
      Comment(Notice(records[k][NatureColumn], records[k][DateColumn], ResolverBase + records[k][NoticeColumn])))
  }

  /** The notice lines for each zombie's records, zombie by zombie. */
  function ExpectedComments(zombies: seq<string>, table: Table): seq<ReportLine>
    requires forall z :: z in zombies ==> z in table && Complete(table[z])
    decreases |zombies|
  {
    if zombies == [] then []
    else
      assert zombies[0] in zombies;
      NoticeLines(table[zombies[0]]) + ExpectedComments(zombies[1..], table)
  }

  /** Reference definition of the main loop's lines: for each DOI, in paper
      order, its verdict and, right under it when it is a zombie, the
      notices of its records. */
  function ExpectedBody(dois: seq<string>, table: Table): seq<ReportLine>
    requires forall d :: d in dois && d in table ==> Complete(table[d])
    decreases |dois|
  {
    if dois == [] then []
    else
      var d := dois[0];
      assert d in dois;
      assert forall x :: x in dois[1..] ==> x in dois;
      [Verdict(d, d in table)] + (if d in table then NoticeLines(table[d]) else [])
        + ExpectedBody(dois[1..], table)
  }

  /** The main loop prints each zombie's notices directly under its
      verdict: its lines are exactly the reference blocks, DOI by DOI. */
  lemma {:induction false} BodyBlocks(dois: seq<string>, table: Table)
    requires Body(dois, table).Success?
    ensures forall d :: d in dois && d in table ==> Complete(table[d])
    ensures Body(dois, table).value == ExpectedBody(dois, table)
    decreases |dois|
  {
    BodySucceeds(dois, table);
    if dois != [] {
      BodyBlocks(dois[1..], table);
    }
  }

  /** The lines for one DOI: its verdict and, for a zombie, its notices. */
  lemma BlockContents(d: string, table: Table)
    requires Block(d, table).Success?
    ensures d in table ==> Complete(table[d])
    ensures Select(Block(d, table).value, IsVerdict) == [Verdict(d, d in table)]
    ensures Select(Block(d, table).value, IsComment) == if d in table then NoticeLines(table[d]) else []
    ensures Select(Block(d, table).value, IsDump) == []
  {
    var b := Block(d, table).value;
    if d in table {
      var cs := NoticeLines(table[d]);
      assert b == [Verdict(d, true)] + cs;
      SelectAppend([Verdict(d, true)], cs, IsVerdict);
      SelectAppend([Verdict(d, true)], cs, IsComment);
      SelectAppend([Verdict(d, true)], cs, IsDump);
      SelectNone(cs, IsVerdict);
      SelectAll(cs, IsComment);
      SelectNone(cs, IsDump);
    }
  }

  /** The report's main loop succeeds exactly when every zombie's records
      are complete. */
  lemma {:induction false} BodySucceeds(dois: seq<string>, table: Table)
    ensures Body(dois, table).Success? <==> forall d :: d in dois && d in table ==> Complete(table[d])
    decreases |dois|
  {
    if dois != [] {
      BodySucceeds(dois[1..], table);
      assert forall d :: d in dois <==> d == dois[0] || d in dois[1..];
    }
  }

  /** The main loop prints one verdict per DOI, in paper order. */
  lemma {:induction false} BodyVerdicts(dois: seq<string>, table: Table)
    requires Body(dois, table).Success?
    ensures Select(Body(dois, table).value, IsVerdict) == ExpectedVerdicts(dois, table)
    decreases |dois|
  {
    if dois != [] {
      var b := Block(dois[0], table).value;
      var rest := Body(dois[1..], table).value;
      BodyVerdicts(dois[1..], table);
      BlockContents(dois[0], table);
      SelectAppend(b, rest, IsVerdict);
      var ev := ExpectedVerdicts(dois, table);
      assert ev == [ev[0]] + ExpectedVerdicts(dois[1..], table);
    }
  }

  /** Every zombie of a successful main loop has complete records. */
  lemma ZombiesComplete(dois: seq<string>, table: Table)
    requires Body(dois, table).Success?
    ensures forall z :: z in Zombies(dois, table) ==> Complete(table[z])
  {
    BodySucceeds(dois, table);
  }

  /** The main loop prints the notices of each zombie's records, zombie by
      zombie. */
  lemma {:induction false} BodyComments(dois: seq<string>, table: Table)
    requires Body(dois, table).Success?
    ensures forall z :: z in Zombies(dois, table) ==> Complete(table[z])
    ensures Select(Body(dois, table).value, IsComment) == ExpectedComments(Zombies(dois, table), table)
    decreases |dois|
  {
    ZombiesComplete(dois, table);
    if dois != [] {
      var d := dois[0];
      var b := Block(d, table).value;
      var rest := Body(dois[1..], table).value;
      BodyComments(dois[1..], table);
      BlockContents(d, table);
      SelectAppend(b, rest, IsComment);
      if d in table {
        assert Zombies(dois, table) == [d] + Zombies(dois[1..], table);
      } else {
        assert Zombies(dois, table) == Zombies(dois[1..], table);
      }
    }
  }

  /** The main loop prints no record list. */
  lemma {:induction false} BodyDumps(dois: seq<string>, table: Table)
    requires Body(dois, table).Success?
    ensures Select(Body(dois, table).value, IsDump) == []
    decreases |dois|
  {
    if dois != [] {
      BodyDumps(dois[1..], table);
      BlockContents(dois[0], table);
      SelectAppend(Block(dois[0], table).value, Body(dois[1..], table).value, IsDump);
    }
  }

  /** `report` succeeds exactly when it has no DOI to look up, or the table
      loads and every record of every zombie has the three notice columns. */
  lemma ReportSucceeds(paper: Paper, db: Retractions.Database, pats: seq<Doi.Matcher>)
    ensures Report(paper, db, pats).Success? <==>
      || paper.dois == []
      || (&& Retractions.Data(db, pats).Success?
          && forall d :: d in paper.dois && d in Retractions.Data(db, pats).value.table ==>
               Complete(Retractions.Data(db, pats).value.table[d]))
  {
    if paper.dois != [] && Retractions.Data(db, pats).Success? {
      BodySucceeds(paper.dois, Retractions.Data(db, pats).value.table);
    }
  }

  /** A successful report prints each DOI's verdict with a zombie's notices
      right under it, DOI by DOI, and then each zombie's record list. Read
      by kind: the verdicts for every DOI, the notices of every zombie's
      records, and the record lists, which come last. */
  lemma ReportContents(paper: Paper, db: Retractions.Database, pats: seq<Doi.Matcher>)
    requires paper.dois != [] && Report(paper, db, pats).Success?
    ensures var table := Retractions.Data(db, pats).value.table;
      var lines := Report(paper, db, pats).value.lines;
      var zombies := Zombies(paper.dois, table);
      && (forall d :: d in paper.dois && d in table ==> Complete(table[d]))
      && (forall z :: z in zombies ==> Complete(table[z]))
      && lines == ExpectedBody(paper.dois, table) + Dumps(zombies, table)
      && Select(lines, IsVerdict) == ExpectedVerdicts(paper.dois, table)
      && Select(lines, IsComment) == ExpectedComments(zombies, table)
      && Select(lines, IsDump) == Dumps(zombies, table)
      && lines[|lines| - |zombies|..] == Dumps(zombies, table)
  {
    var table := Retractions.Data(db, pats).value.table;
    var body := Body(paper.dois, table).value;
    var zombies := Zombies(paper.dois, table);
    var dumps := Dumps(zombies, table);
    BodyBlocks(paper.dois, table);
    BodyVerdicts(paper.dois, table);
    BodyComments(paper.dois, table);
    BodyDumps(paper.dois, table);
    SelectAppend(body, dumps, IsVerdict);
    SelectAppend(body, dumps, IsComment);
    SelectAppend(body, dumps, IsDump);
    SelectNone(dumps, IsVerdict);
    SelectNone(dumps, IsComment);
    SelectAll(dumps, IsDump);
  }

  /** A paper without DOIs reports nothing and leaves the database alone. */
  lemma EmptyPaperReport(db: Retractions.Database, pats: seq<Doi.Matcher>)
    ensures Report(Paper([]), db, pats) == Success(Printed([], db, {}))
    ensures JsonReport(Paper([]), db, pats) == Success(Answered(map[], db, {}))
  {
  }

  /** Whatever its outcome, a report leaves the database as the table's
      first access left it and carries the warnings that access printed; a
      missing column is raised only after the table is built and cached.
      When the table cannot be loaded, nothing changes. */
  lemma ReportState(paper: Paper, db: Retractions.Database, pats: seq<Doi.Matcher>)
    ensures paper.dois == [] ==> Report(paper, db, pats) == Success(Printed([], db, {}))
    ensures paper.dois != [] && Retractions.Data(db, pats).Failure? ==>
      Report(paper, db, pats) == Failure(Aborted(NoData(Retractions.Data(db, pats).error), db, {}))
    ensures paper.dois != [] && Retractions.Data(db, pats).Success? ==>
      var l := Retractions.Data(db, pats).value;
      var r := Report(paper, db, pats);
      && (r.Success? ==> r.value.db == l.db && r.value.warned == l.warned)
      && (r.Failure? ==> r.error.db == l.db && r.error.warned == l.warned && r.error.error.MissingColumn?)
  {
    if paper.dois != [] {
      match Retractions.Data(db, pats)
      case Failure(_) =>
      case Success(l) =>
        match Body(paper.dois, l.table)
        case Failure(e) =>
          BodyFailure(paper.dois, l.table);
        case Success(_) =>
    }
  }

  /** The main loop only ever fails on a missing column. */
  lemma {:induction false} BodyFailure(dois: seq<string>, table: Table)
    requires Body(dois, table).Failure?
    ensures Body(dois, table).error.MissingColumn?
    decreases |dois|
  {
    if Block(dois[0], table).Failure? {
      CommentsFailure(table[dois[0]]);
    } else {
      BodyFailure(dois[1..], table);
    }
  }

  /** A zombie's comments only ever fail on a missing column. */
  lemma {:induction false} CommentsFailure(records: seq<Row>)
    requires Comments(records).Failure?
    ensures Comments(records).error.MissingColumn?
    decreases |records|
  {
    if NoticeOf(records[0]).Success? {
      CommentsFailure(records[1..]);
    }
  }

  /** `json_report` maps exactly the paper's DOIs, each to its membership in
      the table, and fails only when the table cannot be loaded. */
  lemma JsonReportSpec(paper: Paper, db: Retractions.Database, pats: seq<Doi.Matcher>)
    ensures JsonReport(paper, db, pats).Failure? <==> paper.dois != [] && Retractions.Data(db, pats).Failure?
    ensures JsonReport(paper, db, pats).Success? && paper.dois != [] ==>
      var a := JsonReport(paper, db, pats).value;
      var l := Retractions.Data(db, pats).value;
      && a.values.Keys == set d | d in paper.dois
      && (forall d :: d in a.values ==> (a.values[d] <==> d in l.table))
      && a.db == l.db && a.warned == l.warned
  {
  }

  /** The verdicts of a successful report, one per DOI in paper order. */
  lemma ReportVerdicts(paper: Paper, db: Retractions.Database, pats: seq<Doi.Matcher>)
    requires paper.dois != [] && Report(paper, db, pats).Success?
    ensures Retractions.Data(db, pats).Success?
    ensures Select(Report(paper, db, pats).value.lines, IsVerdict)
      == ExpectedVerdicts(paper.dois, Retractions.Data(db, pats).value.table)
  {
    var table := Retractions.Data(db, pats).value.table;
    var body := Body(paper.dois, table).value;
    var dumps := Dumps(Zombies(paper.dois, table), table);
    BodyVerdicts(paper.dois, table);
    SelectAppend(body, dumps, IsVerdict);
    SelectNone(dumps, IsVerdict);
  }

  /** The JSON value of the `k`-th DOI of the paper. */
  lemma JsonValueAt(paper: Paper, db: Retractions.Database, pats: seq<Doi.Matcher>, k: nat)
    requires k < |paper.dois| && Retractions.Data(db, pats).Success?
    ensures JsonReport(paper, db, pats).Success?
    ensures var m := JsonReport(paper, db, pats).value.values;
      paper.dois[k] in m && m[paper.dois[k]] == (paper.dois[k] in Retractions.Data(db, pats).value.table)
  {
    assert paper.dois[k] in paper.dois;
  }

  /** The JSON map and the printed report agree on every DOI: its value is
      `true` exactly when its verdict line marks it a zombie. */
  lemma JsonAgreesWithReport(paper: Paper, db: Retractions.Database, pats: seq<Doi.Matcher>, k: nat)
    requires Report(paper, db, pats).Success? && k < |paper.dois|
    ensures JsonReport(paper, db, pats).Success?
    ensures var m := JsonReport(paper, db, pats).value.values;
      var vs := Select(Report(paper, db, pats).value.lines, IsVerdict);
      paper.dois[k] in m && k < |vs| && vs[k] == Verdict(paper.dois[k], m[paper.dois[k]])
  {
    ReportVerdicts(paper, db, pats);
    JsonValueAt(paper, db, pats, k);
  }

  /** The printed verdict line: a blank mark for a zombie, a check mark
      (U+2714 U+FE0F) otherwise, then a space and the DOI. */
  function VerdictText(doi: string, zombie: bool): string {
    (if zombie then " " else "✔️") + " " + doi
  }

  /** The printed notice line: the words joined by single spaces after a
      two-space indent and an exclamation mark (U+2757). */
  function CommentText(n: Notice): string {
    "  ❗" + " " + n.nature + " " + "-" + " " + n.date + " " + "-" + " " + "see " + n.url
  }

  /** A notice line opens with its indent and mark and closes with the
      notice's resolver link, right after `see `. */
  lemma CommentTextEnds(n: Notice)
    ensures var t := CommentText(n);
      && |t| >= 4 + |n.url| + 4
      && t[..4] == "  ❗ "
      && t[|t| - |n.url| - 4..|t| - |n.url|] == "see "
      && t[|t| - |n.url|..] == n.url
  {
    var t := CommentText(n);
    var head := "  ❗" + " " + n.nature + " " + "-" + " " + n.date + " " + "-" + " ";
    assert t == head + "see " + n.url;
    assert t[..4] == head[..4];
    assert t[|t| - |n.url|..] == n.url;
    assert t[|t| - |n.url| - 4..|t| - |n.url|] == "see ";
  }

  /** Reading a verdict line back. */
  function ParseVerdict(line: string): Option<(string, bool)> {
    if |line| >= 2 && line[..2] == "  " then Some((line[2..], true))
    else if |line| >= 3 && line[..3] == "✔️ " then Some((line[3..], false))
    else None
  }

  /** A verdict line determines both the DOI and the verdict. */
  lemma VerdictTextRoundTrip(doi: string, zombie: bool)
    ensures ParseVerdict(VerdictText(doi, zombie)) == Some((doi, zombie))
  {
    var t := VerdictText(doi, zombie);
    if zombie {
      assert t[..2] == "  " && t[2..] == doi;
    } else {
      assert t[..2] != "  " by {
        assert t[0] == '✔';
      }
      assert t[..3] == "✔️ " && t[3..] == doi;
    }
  }
}
