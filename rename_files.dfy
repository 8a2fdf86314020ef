/**
  A model of the column relabeller in Sequencing/code/scripts/rename_files.py.

  The script reads a reference spreadsheet of (barcode, sample name) rows,
  turns it into a dictionary, reads a tab-separated counts table, and
  replaces the table's header: the first column becomes "tax_id" and every
  later column is looked up in the dictionary, keeping its own name when it
  is not a key. Reading and writing files is not modelled: the parsed
  reference rows and the parsed counts table are inputs, and the relabelled
  table is the output.
 */
module RenameFiles {

  /** One row of the reference spreadsheet: (barcode, sample name). */
  type ReferenceRow = (string, string)

  /** A parsed counts table: its header row and the data rows beneath it. */
  datatype Table = Table(header: seq<string>, rows: seq<seq<string>>)

  /** The one error the script raises itself: the counts file is absent. */
  datatype Error = FileNotFound(path: string)

  datatype Result<T> = Success(value: T) | Failure(error: Error)

  /** The literal the script writes over the first header. */
  const TaxIdHeader: string := "tax_id"

  // ---------------------------------------------------------------------
  // Building the rename map
  // ---------------------------------------------------------------------

  /** The set of barcodes named anywhere in the reference. */
  function Barcodes(refs: seq<ReferenceRow>): set<string>
  {
    set i | 0 <= i < |refs| :: refs[i].0
  }

  /** Row i is the last row of the reference that carries its barcode. */
  predicate IsLastOccurrence(refs: seq<ReferenceRow>, i: int)
    requires 0 <= i < |refs|
  {
    forall j :: i < j < |refs| ==> refs[j].0 != refs[i].0
  }

  /**
    The barcode -> sample name dictionary. Building a dict from a Series
    inserts the rows in order, so a barcode that occurs more than once ends
    up with the sample name of its last row.
   */
  function BuildRenameMap(refs: seq<ReferenceRow>): (m: map<string, string>)
    ensures m.Keys == Barcodes(refs)
    ensures forall i :: 0 <= i < |refs| && IsLastOccurrence(refs, i) ==> m[refs[i].0] == refs[i].1
  {
    if refs == [] then map[]
    else
      var init, last := refs[..|refs| - 1], refs[|refs| - 1];
      SplitLastRow(refs);
      BuildRenameMap(init)[last.0 := last.1]
  }

  /** How the barcodes and last occurrences of a reference relate to those without its last row. */
  lemma SplitLastRow(refs: seq<ReferenceRow>)
    requires refs != []
    ensures Barcodes(refs) == Barcodes(refs[..|refs| - 1]) + {refs[|refs| - 1].0}
    ensures forall i :: 0 <= i < |refs| - 1 && IsLastOccurrence(refs, i) ==>
      refs[..|refs| - 1][i] == refs[i] && IsLastOccurrence(refs[..|refs| - 1], i) && refs[i].0 != refs[|refs| - 1].0
  {
    var init := refs[..|refs| - 1];
    assert forall i :: 0 <= i < |init| ==> init[i] == refs[i];
  }

  /** Every value of m equals its key: a renaming that renames nothing. */
  predicate IsIdentity(m: map<string, string>)
  {
    forall k :: k in m ==> m[k] == k
  }

  /**
    Building the dictionary from two consecutive blocks of reference rows
    is the union of the two dictionaries, the later block winning on
    shared barcodes.
   */
  lemma {:induction false} RenameMapOfConcat(a: seq<ReferenceRow>, b: seq<ReferenceRow>)
    ensures BuildRenameMap(a + b) == BuildRenameMap(a) + BuildRenameMap(b)
  {
    if b == [] {
      assert a + b == a;
    } else {
      var init, last := b[..|b| - 1], b[|b| - 1];
      assert (a + b)[..|a + b| - 1] == a + init;
      assert (a + b)[|a + b| - 1] == last;
      RenameMapOfConcat(a, init);
    }
  }

  /** When no barcode repeats, every reference row is honoured. */
  lemma UniqueBarcodesMapEveryRow(refs: seq<ReferenceRow>)
    requires forall i, j :: 0 <= i < j < |refs| ==> refs[i].0 != refs[j].0
    ensures forall i :: 0 <= i < |refs| ==> BuildRenameMap(refs)[refs[i].0] == refs[i].1
  {
    forall i | 0 <= i < |refs|
      ensures BuildRenameMap(refs)[refs[i].0] == refs[i].1
    {
      assert IsLastOccurrence(refs, i);
    }
  }

  /** A reference whose sample names equal its barcodes gives an identity map. */
  lemma {:induction false} IdentityReferenceGivesIdentityMap(refs: seq<ReferenceRow>)
    requires forall i :: 0 <= i < |refs| ==> refs[i].1 == refs[i].0
    ensures IsIdentity(BuildRenameMap(refs))
  {
    if refs != [] {
      IdentityReferenceGivesIdentityMap(refs[..|refs| - 1]);
    }
  }

  // ---------------------------------------------------------------------
  // Relabelling the header
  // ---------------------------------------------------------------------

  /** dict.get(col, col): the mapped name, or the column itself. */
  function Lookup(m: map<string, string>, col: string): string
  {
    if col in m then m[col] else col
  }

  /** The list comprehension over the columns after the first. */
  function RenameColumns(cols: seq<string>, m: map<string, string>): (r: seq<string>)
    ensures |r| == |cols|
    ensures forall i :: 0 <= i < |cols| && cols[i] in m ==> r[i] == m[cols[i]]
    ensures forall i :: 0 <= i < |cols| && cols[i] !in m ==> r[i] == cols[i]
  {
    if cols == [] then [] else [Lookup(m, cols[0])] + RenameColumns(cols[1..], m)
  }

  /** The new header: "tax_id" followed by the renamed remaining columns. */
  function RelabelHeader(header: seq<string>, m: map<string, string>): (r: seq<string>)
    requires |header| >= 1
    ensures |r| == |header|
    ensures r[0] == TaxIdHeader
    ensures forall i :: 1 <= i < |header| && header[i] in m ==> r[i] == m[header[i]]
    ensures forall i :: 1 <= i < |header| && header[i] !in m ==> r[i] == header[i]
  {
    [TaxIdHeader] + RenameColumns(header[1..], m)
  }

  /** Assigning the new header to the table: the rows are left as they are. */
  function Relabel(t: Table, m: map<string, string>): (r: Table)
    requires |t.header| >= 1
    ensures r.rows == t.rows
    ensures |r.header| == |t.header| && r.header[0] == TaxIdHeader
    ensures forall i :: 1 <= i < |t.header| ==> r.header[i] == Lookup(m, t.header[i])
  {
    Table(RelabelHeader(t.header, m), t.rows)
  }

  /** Renaming a run of columns in two pieces renames each piece in place. */
  lemma {:induction false} RenameColumnsConcat(a: seq<string>, b: seq<string>, m: map<string, string>)
    ensures RenameColumns(a + b, m) == RenameColumns(a, m) + RenameColumns(b, m)
  {
    if a != [] {
      assert (a + b)[1..] == a[1..] + b;
      RenameColumnsConcat(a[1..], b, m);
    }
  }

  /**
    The name at a position after the first depends only on the header at
    that position and the map: two headers that agree there, relabelled
    with maps that agree on that name, agree there.
   */
  lemma RelabelIsPointwise(h1: seq<string>, h2: seq<string>, m1: map<string, string>,
                           m2: map<string, string>, i: int)
    requires 1 <= i < |h1| && i < |h2| && h1[i] == h2[i]
    requires Lookup(m1, h1[i]) == Lookup(m2, h2[i])
    ensures RelabelHeader(h1, m1)[i] == RelabelHeader(h2, m2)[i]
  {
  }

  /** Every table row has one cell per header column. */
  predicate IsRectangular(t: Table)
  {
    forall k :: 0 <= k < |t.rows| ==> |t.rows[k]| == |t.header|
  }

  /** Relabelling keeps the column count, so a rectangular table stays one. */
  lemma RelabelKeepsShape(t: Table, m: map<string, string>)
    requires |t.header| >= 1
    ensures IsRectangular(Relabel(t, m)) <==> IsRectangular(t)
  {
  }

  /**
    With an identity map (the empty map among them) the header is the
    input header with its first entry replaced by "tax_id".
   */
  lemma IdentityMapKeepsHeader(header: seq<string>, m: map<string, string>)
    requires |header| >= 1 && IsIdentity(m)
    ensures RelabelHeader(header, m) == [TaxIdHeader] + header[1..]
  {
    var r := RelabelHeader(header, m);
    assert forall i :: 0 <= i < |header| ==> r[i] == ([TaxIdHeader] + header[1..])[i];
  }

  /** A table whose first header is already "tax_id" is a fixed point of an identity map. */
  lemma IdentityMapFixesTaxIdTable(t: Table, m: map<string, string>)
    requires |t.header| >= 1 && t.header[0] == TaxIdHeader && IsIdentity(m)
    ensures Relabel(t, m) == t
  {
    IdentityMapKeepsHeader(t.header, m);
    assert [TaxIdHeader] + t.header[1..] == t.header;
  }

  /** Re-running the relabeller on its own output with an identity map changes nothing. */
  lemma RelabelThenIdentityIsIdempotent(t: Table, m: map<string, string>, id: map<string, string>)
    requires |t.header| >= 1 && IsIdentity(id)
    ensures Relabel(Relabel(t, m), id) == Relabel(t, m)
  {
    IdentityMapFixesTaxIdTable(Relabel(t, m), id);
  }

  // ---------------------------------------------------------------------
  // The script as a whole
  // ---------------------------------------------------------------------

  /**
    The script: fail when the counts file does not exist, otherwise build
    the dictionary from the reference rows and relabel the counts table.
    `countsExists` is the answer of the filesystem query on `countsPath`;
    `counts` is the parsed table, meaningful only when the file exists.
   */
  function Run(countsPath: string, countsExists: bool, refs: seq<ReferenceRow>, counts: Table): (r: Result<Table>)
    requires countsExists ==> |counts.header| >= 1
    ensures !countsExists <==> r == Failure(FileNotFound(countsPath))
    ensures countsExists ==> r.Success? && r.value.rows == counts.rows
    ensures countsExists ==> |r.value.header| == |counts.header| && r.value.header[0] == TaxIdHeader
    ensures countsExists ==>
      forall i, j :: 1 <= i < |counts.header| && 0 <= j < |refs| && counts.header[i] == refs[j].0 && IsLastOccurrence(refs, j)
        ==> r.value.header[i] == refs[j].1
    ensures countsExists ==>
      forall i :: 1 <= i < |counts.header| && counts.header[i] !in Barcodes(refs) ==> r.value.header[i] == counts.header[i]
  {
    if !countsExists then Failure(FileNotFound(countsPath))
    else Success(Relabel(counts, BuildRenameMap(refs)))
  }

  /**
    An example: BC01 -> Soil_A and BC02 -> Soil_B, with BC99
    absent from the reference and so passed through.
   */
  lemma ExampleScenario()
    ensures Run("counts.tsv", true, [("BC01", "Soil_A"), ("BC02", "Soil_B")],
                Table(["tax_id", "BC01", "BC02", "BC99"], []))
         == Success(Table(["tax_id", "Soil_A", "Soil_B", "BC99"], []))
  {
    var refs := [("BC01", "Soil_A"), ("BC02", "Soil_B")];
    var m := BuildRenameMap(refs);
    assert IsLastOccurrence(refs, 0) && IsLastOccurrence(refs, 1);
    assert "BC99" !in m;
    var r := RelabelHeader(["tax_id", "BC01", "BC02", "BC99"], m);
    assert r == ["tax_id", "Soil_A", "Soil_B", "BC99"];
  }
}
