/**
 * The transform, assemble and deduplicate body of `process_data`: resolve the
 * columns, clean and classify the document column, project onto the target
 * schema and drop rows whose document repeats an earlier one.
 */
module Pipeline {
  import opened Wrappers
  import opened Text
  import opened Frames
  import opened Documents
  import opened Columns
  import opened Dedup

  /** The one failure the modelled part reports: an input with no rows or no columns. */
  datatype Error = EmptyInput

  datatype Result<T> = Success(value: T) | Failure(error: Error)

  /** The output data frame: its column names and its rows. */
  datatype Frame = Frame(columns: seq<string>, rows: seq<Row>)

  /** Positions in `TARGET_COLUMNS`. */
  const CODIGO: nat := 0
  const CPF: nat := 3
  const TIPO_PESSOA: nat := 4
  const COMPLEMENTO: nat := 10
  const OBSERVACOES: nat := 14

  /** The default legal name of the `razao_social` fallback. */
  const NOT_INFORMED: string := "N\U{C3}O INFORMADO"

  /**
   * `mapped_data['cpf'].apply(clean_document)`: one pair per cell, the
   * cell's digits and the person type their count gives.
   */
  function CleanDocuments(col: seq<string>): (docs: seq<(string, string)>)
    ensures |docs| == |col|
    ensures forall i :: 0 <= i < |col| ==> docs[i].0 == Digits(col[i])
    ensures forall i :: 0 <= i < |col| ==>
      && (docs[i].1 == PERSON <==> |docs[i].0| == 11)
      && (docs[i].1 == COMPANY <==> |docs[i].0| == 14)
      && (docs[i].1 == UNKNOWN <==> |docs[i].0| != 11 && |docs[i].0| != 14)
  {
    seq(|col|, i requires 0 <= i < |col| => CleanDocument(Some(col[i])))
  }

  /** The first half of `zip(*documents)`: the cleaned numbers. */
  function Numbers(docs: seq<(string, string)>): (r: seq<string>)
    ensures |r| == |docs| && forall i :: 0 <= i < |docs| ==> r[i] == docs[i].0
  {
    seq(|docs|, i requires 0 <= i < |docs| => docs[i].0)
  }

  /** The second half of `zip(*documents)`: the person types. */
  function PersonTypes(docs: seq<(string, string)>): (r: seq<string>)
    ensures |r| == |docs| && forall i :: 0 <= i < |docs| ==> r[i] == docs[i].1
  {
    seq(|docs|, i requires 0 <= i < |docs| => docs[i].1)
  }

  /** Every column of `mapped` has `n` entries. */
  predicate Aligned(mapped: map<string, seq<string>>, n: nat) {
    forall f :: f in mapped ==> |mapped[f]| == n
  }

  /**
   * The dictionary after the document column is replaced by its digits,
   * `tipo_pessoa` is added, and `razao_social` is given its default when absent.
   */
  function WithDocuments(mapped: map<string, seq<string>>, n: nat): (r: map<string, seq<string>>)
    requires "cpf" in mapped
    ensures r.Keys == mapped.Keys + {"tipo_pessoa", "razao_social"}
    ensures |r["cpf"]| == |r["tipo_pessoa"]| == |mapped["cpf"]|
    ensures forall i :: 0 <= i < |mapped["cpf"]| ==>
      (r["cpf"][i], r["tipo_pessoa"][i]) == CleanDocument(Some(mapped["cpf"][i]))
    ensures forall f :: f in mapped && f != "cpf" && f != "tipo_pessoa" ==> r[f] == mapped[f]
    ensures "razao_social" !in mapped ==>
      |r["razao_social"]| == n && forall i :: 0 <= i < n ==> r["razao_social"][i] == NOT_INFORMED
  {
    var docs := CleanDocuments(mapped["cpf"]);
    var m := mapped["cpf" := Numbers(docs)]["tipo_pessoa" := PersonTypes(docs)];
    m["razao_social" := if "razao_social" in m then m["razao_social"] else seq(n, _ => NOT_INFORMED)]
  }

  /** The cell of row `i` under output column `name`: `mapped.get(name, [""] * n)[i]`. */
  function CellOf(mapped: map<string, seq<string>>, name: string, i: nat): string
    requires name in mapped ==> i < |mapped[name]|
  {
    if name in mapped then mapped[name][i] else ""
  }

  /** `pd.DataFrame({col: mapped.get(col.lower(), [""] * n) for col in targets})`, as rows. */
  function Assemble(targets: seq<string>, mapped: map<string, seq<string>>, n: nat): (rows: seq<Row>)
    requires Aligned(mapped, n)
    ensures |rows| == n
    ensures forall i :: 0 <= i < n ==> |rows[i]| == |targets|
  {
    seq(n, i requires 0 <= i < n =>
      seq(|targets|, c requires 0 <= c < |targets| => CellOf(mapped, Lower(targets[c]), i)))
  }

  /** `mapped_data` as the output frame is built from it. */
  function FinalColumns(t: Table): (m: map<string, seq<string>>)
    requires Rectangular(t)
    ensures Aligned(m, |t.rows|)
  {
    var n := |t.rows|;
    var resolved := Resolved(COLUMN_MAPPINGS, t);
    DocumentKeyAlwaysMapped(t);
    DocumentsAligned(resolved, n);
    WithDocuments(resolved, n)
  }

  /** The assembled table, one record per input row, before deduplication. */
  function Assembled(t: Table): seq<Row>
    requires Rectangular(t)
  {
    Assemble(TARGET_COLUMNS, FinalColumns(t), |t.rows|)
  }

  /** What `process_data` returns for a table the reader produced. */
  function Process(t: Table): (r: Result<Frame>)
    requires Rectangular(t)
    ensures r.Failure? <==> |t.rows| == 0 || |t.headers| == 0
    ensures r.Success? ==> r.value.columns == TARGET_COLUMNS && HasColumn(r.value.rows, CPF)
  {
    if |t.rows| == 0 || |t.headers| == 0 then Failure(EmptyInput)
    else
      AssembledShape(t);
      Success(Frame(TARGET_COLUMNS, Deduplicated(Assembled(t), CPF)))
  }

  /** The steps of `process_data` from the emptiness check to the returned frame. */
  method ProcessData(t: Table) returns (r: Result<Frame>)
    requires Rectangular(t)
    ensures r == Process(t)
  {
    var n := |t.rows|;
    if n == 0 || |t.headers| == 0 {
      return Failure(EmptyInput);
    }
    var mapped := MapSourceColumns(COLUMN_MAPPINGS, t);
    DocumentKeyAlwaysMapped(t);
    DocumentsAligned(mapped, n);
    var documents := CleanDocuments(mapped["cpf"]);
    mapped := mapped["cpf" := Numbers(documents)];
    mapped := mapped["tipo_pessoa" := PersonTypes(documents)];
    mapped := mapped["razao_social" := if "razao_social" in mapped then mapped["razao_social"] else seq(n, _ => NOT_INFORMED)];
    var output := Assemble(TARGET_COLUMNS, mapped, n);
    AssembledShape(t);
    var kept := DropDuplicates(output, CPF);
    r := Success(Frame(TARGET_COLUMNS, kept));
  }

  /** Replacing the document column keeps every column `n` entries long. */
  lemma DocumentsAligned(mapped: map<string, seq<string>>, n: nat)
    requires "cpf" in mapped && Aligned(mapped, n)
    ensures Aligned(WithDocuments(mapped, n), n)
  {
  }

  /** The assembled table has one record per input row and one cell per target column. */
  lemma AssembledShape(t: Table)
    requires Rectangular(t)
    ensures |Assembled(t)| == |t.rows|
    ensures HasColumn(Assembled(t), CPF)
    ensures forall i :: 0 <= i < |t.rows| ==> |Assembled(t)[i]| == |TARGET_COLUMNS|
  {
  }

  /** The target names are already lower case, so `col.lower()` looks each up as written. */
  lemma TargetColumnsLowercase()
    ensures forall c :: 0 <= c < |TARGET_COLUMNS| ==> Lower(TARGET_COLUMNS[c]) == TARGET_COLUMNS[c]
  {
    forall c | 0 <= c < |TARGET_COLUMNS| ensures Lower(TARGET_COLUMNS[c]) == TARGET_COLUMNS[c] {
      var name := TARGET_COLUMNS[c];
      assert forall k :: 0 <= k < |name| ==> 'a' <= name[k] <= 'z' || name[k] == '_';
      LowerOfLowercase(name);
    }
  }

  /** The columns no synonym list feeds. */
  lemma UnmappedTargets()
    ensures "tipo_pessoa" !in FieldNames(COLUMN_MAPPINGS)
    ensures TARGET_COLUMNS[CODIGO] !in FieldNames(COLUMN_MAPPINGS)
    ensures TARGET_COLUMNS[COMPLEMENTO] !in FieldNames(COLUMN_MAPPINGS)
    ensures TARGET_COLUMNS[OBSERVACOES] !in FieldNames(COLUMN_MAPPINGS)
  {
  }

  /** `mapped_data` holds the resolved fields and `tipo_pessoa`, and nothing else. */
  lemma FinalColumnsKeys(t: Table)
    requires Rectangular(t)
    ensures FinalColumns(t).Keys == FieldNames(COLUMN_MAPPINGS) + {"tipo_pessoa"}
  {
    DocumentKeyAlwaysMapped(t);
    assert COLUMN_MAPPINGS[0].0 == "razao_social";
    assert "razao_social" in Resolved(COLUMN_MAPPINGS, t);
  }

  /** A cell of the assembled table is looked up under its target's own name. */
  lemma AssembledCell(t: Table, i: nat, c: nat)
    requires Rectangular(t) && i < |t.rows| && c < |TARGET_COLUMNS|
    ensures Assembled(t)[i][c] == CellOf(FinalColumns(t), TARGET_COLUMNS[c], i)
  {
    TargetColumnsLowercase();
  }

  /** The targets no field feeds are empty in every record. */
  lemma AssembledUnmappedEmpty(t: Table, i: nat)
    requires Rectangular(t) && i < |t.rows|
    ensures Assembled(t)[i][CODIGO] == ""
    ensures Assembled(t)[i][COMPLEMENTO] == ""
    ensures Assembled(t)[i][OBSERVACOES] == ""
  {
    FinalColumnsKeys(t);
    UnmappedTargets();
    AssembledCell(t, i, CODIGO);
    AssembledCell(t, i, COMPLEMENTO);
    AssembledCell(t, i, OBSERVACOES);
  }

  /** The document column is resolved from the synonyms of the third mapping. */
  lemma ResolvedDocuments(t: Table)
    requires Rectangular(t)
    ensures "cpf" in Resolved(COLUMN_MAPPINGS, t)
    ensures Resolved(COLUMN_MAPPINGS, t)["cpf"] == ResolveColumn(t, COLUMN_MAPPINGS[2].1)
  {
    assert COLUMN_MAPPINGS[2].0 == "cpf";
    ColumnMappingsDistinct();
    ResolvedLookup(COLUMN_MAPPINGS, t, 2);
  }

  /** The document cells of a record are the cleaned digits and the person type of its document column. */
  lemma AssembledDocument(t: Table, i: nat)
    requires Rectangular(t) && i < |t.rows|
    ensures (Assembled(t)[i][CPF], Assembled(t)[i][TIPO_PESSOA])
         == CleanDocument(Some(ResolveColumn(t, COLUMN_MAPPINGS[2].1)[i]))
  {
    assert TARGET_COLUMNS[CPF] == "cpf" && TARGET_COLUMNS[TIPO_PESSOA] == "tipo_pessoa";
    ResolvedDocuments(t);
    AssembledCell(t, i, CPF);
    AssembledCell(t, i, TIPO_PESSOA);
  }

  /** Every other mapped target holds its field's resolved cell; `razao_social` keeps its resolved column. */
  lemma AssembledMappedField(t: Table, i: nat, c: nat, k: nat)
    requires Rectangular(t) && i < |t.rows| && c < |TARGET_COLUMNS| && k < |COLUMN_MAPPINGS|
    requires TARGET_COLUMNS[c] == COLUMN_MAPPINGS[k].0 && COLUMN_MAPPINGS[k].0 != "cpf"
    ensures Assembled(t)[i][c] == ResolveColumn(t, COLUMN_MAPPINGS[k].1)[i]
  {
    FinalColumnsKeys(t);
    UnmappedTargets();
    ColumnMappingsDistinct();
    ResolvedLookup(COLUMN_MAPPINGS, t, k);
    AssembledCell(t, i, c);
    assert COLUMN_MAPPINGS[k].0 in FieldNames(COLUMN_MAPPINGS);
  }

  /** `process_data` fails exactly on an empty frame; otherwise it has the target columns and at most one row per input row. */
  lemma ProcessShape(t: Table)
    requires Rectangular(t)
    ensures Process(t).Failure? <==> |t.rows| == 0 || |t.headers| == 0
    ensures Process(t).Success? ==>
      && Process(t).value.columns == TARGET_COLUMNS
      && 0 < |Process(t).value.rows| <= |t.rows|
      && forall k :: 0 <= k < |Process(t).value.rows| ==> |Process(t).value.rows[k]| == |TARGET_COLUMNS|
  {
    if Process(t).Success? {
      AssembledShape(t);
      var rows := Assembled(t);
      DeduplicatedKeepsFirstOccurrences(rows, CPF);
      assert IsFirst(rows, CPF, 0);
    }
  }

  /**
   * Every output record has empty unmapped targets, a document made of
   * digits only, and the person type its digit count gives.
   */
  lemma ProcessRecords(t: Table)
    requires Rectangular(t)
    ensures Process(t).Success? ==> forall k :: 0 <= k < |Process(t).value.rows| ==>
      var row := Process(t).value.rows[k];
      && |row| == |TARGET_COLUMNS|
      && row[CODIGO] == "" && row[COMPLEMENTO] == "" && row[OBSERVACOES] == ""
      && (forall d :: 0 <= d < |row[CPF]| ==> IsDigit(row[CPF][d]))
      && (row[TIPO_PESSOA] == PERSON <==> |row[CPF]| == 11)
      && (row[TIPO_PESSOA] == COMPANY <==> |row[CPF]| == 14)
      && (row[TIPO_PESSOA] == UNKNOWN <==> |row[CPF]| != 11 && |row[CPF]| != 14)
  {
    if Process(t).Success? {
      AssembledShape(t);
      var rows := Assembled(t);
      DeduplicatedKeepsFirstOccurrences(rows, CPF);
      var idx := KeptIndices(rows, CPF);
      forall k | 0 <= k < |Process(t).value.rows|
        ensures var row := Process(t).value.rows[k];
          && |row| == |TARGET_COLUMNS|
          && row[CODIGO] == "" && row[COMPLEMENTO] == "" && row[OBSERVACOES] == ""
          && (forall d :: 0 <= d < |row[CPF]| ==> IsDigit(row[CPF][d]))
          && (row[TIPO_PESSOA] == PERSON <==> |row[CPF]| == 11)
          && (row[TIPO_PESSOA] == COMPANY <==> |row[CPF]| == 14)
          && (row[TIPO_PESSOA] == UNKNOWN <==> |row[CPF]| != 11 && |row[CPF]| != 14)
      {
        var i := idx[k];
        AssembledUnmappedEmpty(t, i);
        AssembledDocument(t, i);
        CleanDocumentDigitsOnly(Some(ResolveColumn(t, COLUMN_MAPPINGS[2].1)[i]));
      }
    }
  }

  /**
   * Deduplication by document: no two output records share a document, and
   * every document of the assembled table, the empty one included, is kept.
   */
  lemma ProcessDocumentsUnique(t: Table)
    requires Rectangular(t)
    ensures Process(t).Success? ==>
      var out := Process(t).value.rows;
      && HasColumn(Assembled(t), CPF)
      && HasColumn(out, CPF)
      && (forall k1, k2 :: 0 <= k1 < k2 < |out| ==> out[k1][CPF] != out[k2][CPF])
      && KeySet(out, CPF) == KeySet(Assembled(t), CPF)
  {
    AssembledShape(t);
    if Process(t).Success? {
      DeduplicatedKeysDistinct(Assembled(t), CPF);
      DeduplicatedKeepsEveryKey(Assembled(t), CPF);
    }
  }

  /**
   * Each output record is the first assembled record with its document,
   * records keep their input order, and every first occurrence is output.
   */
  lemma ProcessKeepsFirstRecords(t: Table)
    requires Rectangular(t)
    ensures Process(t).Success? ==>
      var rows, out, idx := Assembled(t), Process(t).value.rows, KeptIndices(Assembled(t), CPF);
      && HasColumn(rows, CPF)
      && |idx| == |out|
      && (forall k :: 0 <= k < |idx| ==> idx[k] < |rows| && out[k] == rows[idx[k]] && IsFirst(rows, CPF, idx[k]))
      && (forall k1, k2 :: 0 <= k1 < k2 < |idx| ==> idx[k1] < idx[k2])
      && (forall i :: 0 <= i < |rows| && IsFirst(rows, CPF, i) ==> i in idx)
  {
    AssembledShape(t);
    if Process(t).Success? {
      DeduplicatedKeepsFirstOccurrences(Assembled(t), CPF);
    }
  }
}
