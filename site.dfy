/**
  One output row per record: the site's coordinates and size, the allele
  statistics and evidence medians of the per-sample pass, and the INFO values,
  written in the column order of the schema. Run is the whole table: the
  header line, then one row per record.

  Integers are written in decimal (Layout.Decimal). Every value the program
  writes as a double is handed to a formatting function fmt as a Cell that
  says what the double is computed from; how a double is printed is not part
  of this model.
*/
module Site {
  import opened Wrappers
  import opened Missing
  import opened Vcf
  import opened Classify
  import opened Schema
  import opened Layout
  import Median

  // ---- Size and coordinates ----

  /** The SV size: INSLEN for an insertion, else END minus the 0-based
      position when END is present, else 1. */
  function Size(rec: Record): (size: int)
    requires rec.svType == Some("INS") ==> rec.insLen.Some?
  {
    if rec.svType == Some("INS") then rec.insLen.value
    else if rec.end.Some? then rec.end.value - rec.pos
    else 1
  }

  /** The start column: the 1-based position. */
  function StartOf(rec: Record): (startPos: int) {
    rec.pos + 1
  }

  /** The end column: END when the header declares it, else the start. */
  function EndOf(hdr: Header, rec: Record): (endPos: int)
    requires InfoWellFormed(hdr, rec)
  {
    if "END" in hdr.keys then rec.end.value else rec.pos + 1
  }

  /** Derives the size in the program's order: 1, then END minus the position
      when END was decoded, then INSLEN for an insertion. */
  method DeriveSize(rec: Record) returns (svlen: int)
    requires rec.svType == Some("INS") ==> rec.insLen.Some?
    ensures svlen == Size(rec)
  {
    svlen := 1;
    if rec.end.Some? {
      svlen := rec.end.value - rec.pos;
    }
    if rec.svType.Some? && rec.svType.value == "INS" {
      svlen := rec.insLen.value;
    }
  }

  /** For any record but an insertion, the size is the number of 1-based
      positions from the start column to the end column, inclusive; for an
      insertion it is INSLEN whatever END says. */
  lemma SizeSpansColumns(hdr: Header, rec: Record)
    requires InfoWellFormed(hdr, rec)
    ensures rec.svType != Some("INS") ==> Size(rec) == EndOf(hdr, rec) - StartOf(rec) + 1
    ensures rec.svType == Some("INS") ==> Size(rec) == rec.insLen.value
    ensures rec.svType != Some("INS") && rec.end.None? ==> Size(rec) == 1
  {
  }

  // ---- Cells ----

  /** What a field is written from. Text and Whole are written as they are;
      every other cell is a double the program computes and prints through
      the stream's default formatting. */
  datatype Cell =
    | Text(s: string)
    | Whole(n: int)
    | Quotient(num: int, den: int)                       // num / den in double precision
    | Real(r: real)                                       // a median of exactly representable values
    | Floating(f: Float)                                  // a decoded single-precision INFO value
    | RatioMedian(v: seq<Ratio>)                          // the median of a vector of quotients
    | RatioOfMedians(alt: seq<Ratio>, ref: seq<Ratio>)    // median(alt) / median(ref)

  /** How a cell is written: a string as it is, an integer in decimal, any
      double by fmt. */
  function Render(c: Cell, fmt: Cell -> string): (text: string) {
    match c
    case Text(s) => s
    case Whole(n) => Decimal(n)
    case _ => fmt(c)
  }

  /** The values a record's row is computed from, besides the record itself. */
  datatype Derived = Derived(tally: Tally, singleton: string, size: int,
                             refGq: real, altGq: real, medianRc: real)

  predicate DerivedValid(d: Derived) {
    |d.tally.ac| == 2
  }

  /** The per-record values as the program computes them after the sample
      pass. */
  function Summarize(hdr: Header, rec: Record): (d: Derived)
    requires SamplesWellFormed(hdr, rec) && (rec.svType == Some("INS") ==> rec.insLen.Some?)
    ensures DerivedValid(d)
  {
    var t := Tallied(hdr, rec, |rec.samples|);
    Derived(t, SingletonOf(t), Size(rec),
            Median.MedianOf(t.gqRef), Median.MedianOf(t.gqAlt), Median.MedianOf(t.rcRef))
  }

  /** The cell written under a column. A name outside the schema writes
      nothing. */
  function CellOf(hdr: Header, rec: Record, d: Derived, column: string): (cell: Cell)
    requires InfoWellFormed(hdr, rec) && DerivedValid(d)
    requires Enabled(column, hdr.keys)
  {
    var t := d.tally;
    if column == "chr" then Text(rec.chrom)
    else if column == "start" then Whole(StartOf(rec))
    else if column == "end" then Whole(EndOf(hdr, rec))
    else if column == "id" then Text(rec.id)
    else if column == "size" then Whole(d.size)
    else if column == "vac" then Whole(t.ac[1])
    else if column == "vaf" then Quotient(t.ac[1], t.ac[0] + t.ac[1])
    else if column == "singleton" then Text(d.singleton)
    else if column == "missingrate" then Quotient(t.uncalled, |hdr.sampleNames|)
    else if column == "svtype" then Text(rec.svType.value)
    else if column == "precise" then Whole(if rec.precise then 1 else 0)
    else if column == "ci" then Whole(rec.ciPos.value.1)
    else if column == "refratio" then RatioMedian(t.ratioRef)
    else if column == "altratio" then RatioMedian(t.ratioAlt)
    else if column == "refgq" then Real(d.refGq)
    else if column == "altgq" then Real(d.altGq)
    else if column == "rdratio" then RatioOfMedians(t.rcAltRatio, t.rcRefRatio)
    else if column == "medianrc" then Real(d.medianRc)
    else if column == "fic" then Floating(rec.fic.value)
    else if column == "rsq" then Floating(rec.rsq.value)
    else if column == "hwepval" then Floating(rec.hwePval.value)
    else Text("")
  }

  /** Every column of cols is one the header enables. */
  predicate AllEnabled(cols: seq<string>, keys: set<string>) {
    forall i :: 0 <= i < |cols| ==> Enabled(cols[i], keys)
  }

  /** The fields of a row under the columns cols, in order. */
  function RowFields(hdr: Header, rec: Record, d: Derived, cols: seq<string>, fmt: Cell -> string): (r: seq<string>)
    requires InfoWellFormed(hdr, rec) && DerivedValid(d) && AllEnabled(cols, hdr.keys)
    ensures |r| == |cols|
  {
    if cols == [] then []
    else RowFields(hdr, rec, d, cols[..|cols| - 1], fmt) + [Render(CellOf(hdr, rec, d, cols[|cols| - 1]), fmt)]
  }

  /** The row of a record: its fields under the header's columns. */
  function RowLine(hdr: Header, rec: Record, fmt: Cell -> string): (line: string)
    requires SamplesWellFormed(hdr, rec) && InfoWellFormed(hdr, rec)
  {
    ColumnsEnabled(hdr.keys);
    Join(RowFields(hdr, rec, Summarize(hdr, rec), Columns(hdr.keys), fmt))
  }

  /** The header line: the column names. */
  function HeaderLine(keys: set<string>): (line: string) {
    Join(Columns(keys))
  }

  // ---- Facts about rows ----

  lemma ColumnsEnabled(keys: set<string>)
    ensures AllEnabled(Columns(keys), keys)
  {
    forall i | 0 <= i < |Columns(keys)|
      ensures Enabled(Columns(keys)[i], keys)
    {
      SelectMembership(AllColumns, keys, Columns(keys)[i]);
    }
  }

  lemma {:induction false} RowFieldAt(hdr: Header, rec: Record, d: Derived, cols: seq<string>,
                                      fmt: Cell -> string, j: nat)
    requires InfoWellFormed(hdr, rec) && DerivedValid(d) && AllEnabled(cols, hdr.keys)
    requires j < |cols|
    ensures RowFields(hdr, rec, d, cols, fmt)[j] == Render(CellOf(hdr, rec, d, cols[j]), fmt)
  {
    if j < |cols| - 1 {
      var init := cols[..|cols| - 1];
      assert AllEnabled(init, hdr.keys);
      RowFieldAt(hdr, rec, d, init, fmt, j);
    }
  }

  /** fmt never writes a tab. */
  ghost predicate TabFreeFormat(fmt: Cell -> string) {
    forall c :: NoTab(fmt(c))
  }

  /** The strings a row copies from the input carry no tab. */
  predicate TabFreeText(hdr: Header, rec: Record) {
    && NoTab(rec.chrom) && NoTab(rec.id)
    && (forall i :: 0 <= i < |hdr.sampleNames| ==> NoTab(hdr.sampleNames[i]))
    && (rec.svType.Some? ==> NoTab(rec.svType.value))
  }

  lemma SingletonTabFree(hdr: Header, rec: Record)
    requires SamplesWellFormed(hdr, rec) && InfoWellFormed(hdr, rec) && TabFreeText(hdr, rec)
    ensures NoTab(Summarize(hdr, rec).singleton)
  {
    var n := |rec.samples|;
    Singleton(hdr, rec);
    if CountOf(rec, HetCarrier, n) == 1 && CountOf(rec, HomAltCarrier, n) == 0 {
      var k := IndicesOf(rec, HetCarrier, n)[0];
      assert NoTab(hdr.sampleNames[k]);
    }
  }

  /** Every cell of a row renders without a tab. */
  lemma CellTabFree(hdr: Header, rec: Record, d: Derived, column: string, fmt: Cell -> string)
    requires InfoWellFormed(hdr, rec) && DerivedValid(d) && Enabled(column, hdr.keys)
    requires TabFreeFormat(fmt) && TabFreeText(hdr, rec) && NoTab(d.singleton)
    ensures NoTab(Render(CellOf(hdr, rec, d, column), fmt))
  {
    var c := CellOf(hdr, rec, d, column);
    if c.Whole? {
      DecimalRoundTrip(c.n);
    }
  }

  lemma FieldsTabFree(hdr: Header, rec: Record, d: Derived, cols: seq<string>, fmt: Cell -> string)
    requires InfoWellFormed(hdr, rec) && DerivedValid(d) && AllEnabled(cols, hdr.keys)
    requires TabFreeFormat(fmt) && TabFreeText(hdr, rec) && NoTab(d.singleton)
    ensures forall j :: 0 <= j < |cols| ==> NoTab(RowFields(hdr, rec, d, cols, fmt)[j])
  {
    forall j | 0 <= j < |cols|
      ensures NoTab(RowFields(hdr, rec, d, cols, fmt)[j])
    {
      RowFieldAt(hdr, rec, d, cols, fmt, j);
      CellTabFree(hdr, rec, d, cols[j], fmt);
    }
  }

  /** A row read back by tabs is its list of rendered cells. */
  lemma RowSplits(hdr: Header, rec: Record, fmt: Cell -> string)
    requires SamplesWellFormed(hdr, rec) && InfoWellFormed(hdr, rec)
    requires TabFreeFormat(fmt) && TabFreeText(hdr, rec)
    ensures AllEnabled(Columns(hdr.keys), hdr.keys)
    ensures Split(RowLine(hdr, rec, fmt)) == RowFields(hdr, rec, Summarize(hdr, rec), Columns(hdr.keys), fmt)
  {
    var cols, d := Columns(hdr.keys), Summarize(hdr, rec);
    ColumnsEnabled(hdr.keys);
    SingletonTabFree(hdr, rec);
    FieldsTabFree(hdr, rec, d, cols, fmt);
    SchemaPrefix(hdr.keys);
    SplitJoin(RowFields(hdr, rec, d, cols, fmt));
  }

  /** Reading a row back by tabs yields exactly one field per header column,
      each the rendering of that column's cell, as long as no copied string
      and no formatted double contains a tab. */
  lemma RowSplitsIntoColumns(hdr: Header, rec: Record, fmt: Cell -> string)
    requires SamplesWellFormed(hdr, rec) && InfoWellFormed(hdr, rec)
    requires TabFreeFormat(fmt) && TabFreeText(hdr, rec)
    ensures AllEnabled(Columns(hdr.keys), hdr.keys)
    ensures |Split(RowLine(hdr, rec, fmt))| == |Columns(hdr.keys)|
    ensures forall j :: 0 <= j < |Columns(hdr.keys)| ==>
              Split(RowLine(hdr, rec, fmt))[j]
              == Render(CellOf(hdr, rec, Summarize(hdr, rec), Columns(hdr.keys)[j]), fmt)
  {
    var cols, d := Columns(hdr.keys), Summarize(hdr, rec);
    RowSplits(hdr, rec, fmt);
    forall j | 0 <= j < |cols|
      ensures Split(RowLine(hdr, rec, fmt))[j] == Render(CellOf(hdr, rec, d, cols[j]), fmt)
    {
      RowFieldAt(hdr, rec, d, cols, fmt, j);
    }
  }

  /** The header line reads back as the column names. */
  lemma HeaderSplitsIntoColumns(keys: set<string>)
    ensures Split(HeaderLine(keys)) == Columns(keys)
  {
    var cols := Columns(keys);
    SchemaPrefix(keys);
    ColumnsTabFree(keys);
    SplitJoin(cols);
  }

  /** The header line holds one tab fewer than there are columns. */
  lemma HeaderTabs(keys: set<string>)
    ensures Tabs(HeaderLine(keys)) == |Columns(keys)| - 1
  {
    SchemaPrefix(keys);
    ColumnsTabFree(keys);
    JoinTabs(Columns(keys));
  }

  /** A row holds one tab fewer than there are columns, the same number as
      the header line, as long as no copied string and no formatted double
      contains a tab. */
  lemma RowTabs(hdr: Header, rec: Record, fmt: Cell -> string)
    requires SamplesWellFormed(hdr, rec) && InfoWellFormed(hdr, rec)
    requires TabFreeFormat(fmt) && TabFreeText(hdr, rec)
    ensures Tabs(RowLine(hdr, rec, fmt)) == |Columns(hdr.keys)| - 1 == Tabs(HeaderLine(hdr.keys))
  {
    var cols, d := Columns(hdr.keys), Summarize(hdr, rec);
    ColumnsEnabled(hdr.keys);
    SingletonTabFree(hdr, rec);
    FieldsTabFree(hdr, rec, d, cols, fmt);
    SchemaPrefix(hdr.keys);
    JoinTabs(RowFields(hdr, rec, d, cols, fmt));
    HeaderTabs(hdr.keys);
  }

  /** Under a schema that opens with the fixed columns, the row opens with
      the chromosome, the 1-based start, the end and the identifier. */
  lemma SiteFields(hdr: Header, rec: Record, d: Derived, cols: seq<string>, fmt: Cell -> string)
    requires InfoWellFormed(hdr, rec) && DerivedValid(d) && AllEnabled(cols, hdr.keys)
    requires |cols| >= 4 && cols[0] == "chr" && cols[1] == "start" && cols[2] == "end" && cols[3] == "id"
    ensures var r := RowFields(hdr, rec, d, cols, fmt);
      && r[0] == rec.chrom && r[1] == Decimal(StartOf(rec)) && r[2] == Decimal(EndOf(hdr, rec))
      && r[3] == rec.id
  {
    RowFieldAt(hdr, rec, d, cols, fmt, 0);
    RowFieldAt(hdr, rec, d, cols, fmt, 1);
    RowFieldAt(hdr, rec, d, cols, fmt, 2);
    RowFieldAt(hdr, rec, d, cols, fmt, 3);
  }

  /** ... and continues with the size and the alternate allele count in
      decimal and, eighth, the singleton. */
  lemma CountFields(hdr: Header, rec: Record, d: Derived, cols: seq<string>, fmt: Cell -> string)
    requires InfoWellFormed(hdr, rec) && DerivedValid(d) && AllEnabled(cols, hdr.keys)
    requires |cols| >= 8 && cols[4] == "size" && cols[5] == "vac" && cols[7] == "singleton"
    ensures var r := RowFields(hdr, rec, d, cols, fmt);
      r[4] == Decimal(d.size) && r[5] == Decimal(d.tally.ac[1]) && r[7] == d.singleton
  {
    RowFieldAt(hdr, rec, d, cols, fmt, 4);
    RowFieldAt(hdr, rec, d, cols, fmt, 5);
    RowFieldAt(hdr, rec, d, cols, fmt, 7);
  }

  /** Read back by tabs, the second field of every row is the 1-based
      position in decimal, the fifth the size and the sixth the number of
      alternate alleles among the called samples; the eighth is the one
      heterozygous carrier when it is the only sample with an alternate
      allele, "NA" otherwise. */
  lemma RowReadsBack(hdr: Header, rec: Record, fmt: Cell -> string)
    requires SamplesWellFormed(hdr, rec) && InfoWellFormed(hdr, rec)
    requires TabFreeFormat(fmt) && TabFreeText(hdr, rec)
    ensures var fields, n := Split(RowLine(hdr, rec, fmt)), |rec.samples|;
      && |fields| >= |FixedColumns|
      && fields[1] == Decimal(rec.pos + 1)
      && fields[4] == Decimal(Size(rec))
      && fields[5] == Decimal(AlleleCount(rec, 1, n))
      && fields[7] == (if CountOf(rec, HetCarrier, n) == 1 && CountOf(rec, HomAltCarrier, n) == 0
                       then hdr.sampleNames[IndicesOf(rec, HetCarrier, n)[0]]
                       else "NA")
  {
    var d, cols, n := Summarize(hdr, rec), Columns(hdr.keys), |rec.samples|;
    RowSplits(hdr, rec, fmt);
    FixedPositions(hdr.keys);
    SiteFields(hdr, rec, d, cols, fmt);
    CountFields(hdr, rec, d, cols, fmt);
    Singleton(hdr, rec);
    var fields := RowFields(hdr, rec, d, cols, fmt);
    assert Split(RowLine(hdr, rec, fmt)) == fields;
    assert d.size == Size(rec) && d.tally.ac[1] == AlleleCount(rec, 1, n);
    assert d.singleton == SingletonOf(Tallied(hdr, rec, n));
  }

  // ---- The record loop ----

  /** The derivations after the sample loop: the singleton finalisation, the
      size and the three medians of exact values. */
  method Finish(hdr: Header, rec: Record, t: Tally) returns (d: Derived)
    requires SamplesWellFormed(hdr, rec) && InfoWellFormed(hdr, rec)
    requires t == Tallied(hdr, rec, |rec.samples|)
    ensures d == Summarize(hdr, rec)
  {
    var rareCarrier := t.rareCarrier;
    if t.ac[1] != 1 {
      rareCarrier := "NA";
    }
    var svlen := DeriveSize(rec);
    var refgq := Median.MedianOfVector(t.gqRef);
    var altgq := Median.MedianOfVector(t.gqAlt);
    var rcMed := Median.MedianOfVector(t.rcRef);
    d := Derived(t, rareCarrier, svlen, refgq, altgq, rcMed);
  }

  /** Computes and writes one record's row under the columns of cHeader. */
  method ProcessRecord(hdr: Header, cHeader: seq<string>, rec: Record, fmt: Cell -> string)
    returns (line: string)
    requires SamplesWellFormed(hdr, rec) && InfoWellFormed(hdr, rec)
    requires cHeader == Columns(hdr.keys)
    ensures line == RowLine(hdr, rec, fmt)
  {
    ColumnsEnabled(hdr.keys);
    var t := ClassifySamples(hdr, rec);
    var d := Finish(hdr, rec, t);
    line := "";
    var j := 0;
    while j < |cHeader|
      invariant 0 <= j <= |cHeader|
      invariant AllEnabled(cHeader[..j], hdr.keys)
      invariant line == Join(RowFields(hdr, rec, d, cHeader[..j], fmt))
    {
      var field := Render(CellOf(hdr, rec, d, cHeader[j]), fmt);
      assert cHeader[..j + 1][..j] == cHeader[..j];
      assert AllEnabled(cHeader[..j + 1], hdr.keys);
      assert RowFields(hdr, rec, d, cHeader[..j + 1], fmt) == RowFields(hdr, rec, d, cHeader[..j], fmt) + [field];
      if j > 0 {
        line := line + "\t";
        JoinSnoc(RowFields(hdr, rec, d, cHeader[..j], fmt), field);
      }
      line := line + field;
      j := j + 1;
    }
    assert cHeader[..j] == cHeader;
  }

  /** All records the table is written for satisfy the decoding assumptions. */
  predicate RecordsWellFormed(hdr: Header, records: seq<Record>) {
    forall i :: 0 <= i < |records| ==> SamplesWellFormed(hdr, records[i]) && InfoWellFormed(hdr, records[i])
  }

  /** Builds the column map from the declared keys, recovers the column list
      from it and writes the header line. */
  method WriteHeader(keys: set<string>) returns (cHeader: seq<string>, head: string)
    ensures cHeader == Columns(keys)
    ensures head == HeaderLine(keys)
  {
    var cMap := BuildColumnMap(keys);
    ColumnsDistinct(keys);
    cHeader := FillHeader(cMap, Columns(keys));
    head := WriteFields(cHeader);
  }

  /** The table for records: the header line, then one row per record in
      input order. */
  function Table(hdr: Header, records: seq<Record>, fmt: Cell -> string): (lines: seq<string>)
    requires RecordsWellFormed(hdr, records)
    ensures |lines| == |records| + 1
  {
    if records == [] then [HeaderLine(hdr.keys)]
    else Table(hdr, records[..|records| - 1], fmt) + [RowLine(hdr, records[|records| - 1], fmt)]
  }

  /** The table opens with the header line. */
  lemma {:induction false} TableHead(hdr: Header, records: seq<Record>, fmt: Cell -> string)
    requires RecordsWellFormed(hdr, records)
    ensures Table(hdr, records, fmt)[0] == HeaderLine(hdr.keys)
  {
    if records != [] {
      TableHead(hdr, records[..|records| - 1], fmt);
    }
  }

  /** Line i + 1 of the table is the row of record i. */
  lemma {:induction false} TableRow(hdr: Header, records: seq<Record>, fmt: Cell -> string, i: nat)
    requires RecordsWellFormed(hdr, records) && i < |records|
    ensures Table(hdr, records, fmt)[i + 1] == RowLine(hdr, records[i], fmt)
  {
    if i < |records| - 1 {
      var init := records[..|records| - 1];
      TableRow(hdr, init, fmt, i);
      assert init[i] == records[i];
    }
  }

  /** The whole table: builds the schema from the header, writes the header
      line, then one row per record in input order. */
  method Run(hdr: Header, records: seq<Record>, fmt: Cell -> string) returns (lines: seq<string>)
    requires RecordsWellFormed(hdr, records)
    ensures lines == Table(hdr, records, fmt)
  {
    var cHeader, head := WriteHeader(hdr.keys);
    lines := [head];
    var i := 0;
    while i < |records|
      invariant 0 <= i <= |records|
      invariant lines == Table(hdr, records[..i], fmt)
    {
      var line := ProcessRecord(hdr, cHeader, records[i], fmt);
      assert records[..i + 1][..i] == records[..i];
      lines := lines + [line];
      i := i + 1;
    }
    assert records[..i] == records;
  }
}
