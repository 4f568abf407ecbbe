/**
 * The column resolver, `map_source_columns`: each canonical field takes the
 * first source header whose lower-cased text contains one of the field's
 * lower-cased synonyms, or a column of empty strings when none does.
 */
module Columns {
  import opened Wrappers
  import opened Text
  import opened Frames

  /** `COLUMN_MAPPINGS`: canonical fields in declared order, each with its synonyms in scan order. */
  const COLUMN_MAPPINGS: seq<(string, seq<string>)> := [
    ("razao_social", ["nome", "razao social", "cliente", "empresa"]),
    ("fantasia", ["fantasia", "nome fantasia"]),
    ("cpf", ["cpf", "documento", "cnpj", "cpf/cnpj"]),
    ("email", ["email", "e-mail"]),
    ("celular", ["celular", "whatsapp", "telefone", "telefone celular"]),
    ("cep", ["cep", "c\U{F3}digo postal"]),
    ("endereco", ["endereco", "logradouro", "rua"]),
    ("numero", ["numero", "n\U{FA}mero", "num"]),
    ("bairro", ["bairro", "distrito"]),
    ("cidade", ["cidade", "munic\U{ED}pio", "municipio"]),
    ("uf", ["uf", "estado", "unidade federativa"])
  ]

  /** `TARGET_COLUMNS`: the output schema, in order. */
  const TARGET_COLUMNS: seq<string> := [
    "codigo", "razao_social", "fantasia", "cpf", "tipo_pessoa",
    "email", "celular", "cep", "endereco", "numero", "complemento",
    "bairro", "cidade", "uf", "observacoes"
  ]

  /**
   * `any(name.lower() in str(src_col).lower() for name in possible_names)`,
   * tried synonym by synonym: true exactly when some synonym occurs in the header.
   */
  predicate HeaderMatches(header: string, synonyms: seq<string>)
    ensures HeaderMatches(header, synonyms) <==>
      exists k :: 0 <= k < |synonyms| && Contains(Lower(header), Lower(synonyms[k]))
  {
    && synonyms != []
    && (Contains(Lower(header), Lower(synonyms[0])) || HeaderMatches(header, synonyms[1..]))
  }

  /**
   * Only the set of synonyms matters to the test, not their order, so
   * reordering a field's synonyms changes no match.
   */
  lemma SynonymOrderIrrelevant(header: string, synonyms: seq<string>, reordered: seq<string>)
    requires forall x :: x in synonyms <==> x in reordered
    ensures HeaderMatches(header, synonyms) <==> HeaderMatches(header, reordered)
  {
    var h := Lower(header);
    if HeaderMatches(header, synonyms) {
      var k :| 0 <= k < |synonyms| && Contains(h, Lower(synonyms[k]));
      assert synonyms[k] in reordered;
      var k' :| 0 <= k' < |reordered| && reordered[k'] == synonyms[k];
      assert Contains(h, Lower(reordered[k']));
    }
    if HeaderMatches(header, reordered) {
      var k :| 0 <= k < |reordered| && Contains(h, Lower(reordered[k]));
      assert reordered[k] in synonyms;
      var k' :| 0 <= k' < |synonyms| && synonyms[k'] == reordered[k];
      assert Contains(h, Lower(synonyms[k']));
    }
  }

  /** The position of the first header that matches, if any. */
  function FirstMatch(headers: seq<string>, synonyms: seq<string>): (r: Option<nat>)
    ensures r.Some? ==> r.value < |headers| && HeaderMatches(headers[r.value], synonyms)
    ensures r.Some? ==> forall j :: 0 <= j < r.value ==> !HeaderMatches(headers[j], synonyms)
    ensures r.None? <==> forall j :: 0 <= j < |headers| ==> !HeaderMatches(headers[j], synonyms)
  {
    if headers == [] then None
    else if HeaderMatches(headers[0], synonyms) then Some(0)
    else
      match FirstMatch(headers[1..], synonyms)
      case None => None
      case Some(j) => Some(j + 1)
  }

  /** The column one field receives: its first matching header's text, else empty strings. */
  function ResolveColumn(t: Table, synonyms: seq<string>): (col: seq<string>)
    requires Rectangular(t)
    ensures |col| == |t.rows|
  {
    match FirstMatch(t.headers, synonyms)
    case Some(j) => Column(t, j)
    case None => Blank(|t.rows|)
  }

  /**
   * The `mapped` dictionary after the fields of `mappings` have been resolved
   * in order: it defines every field and no other key, each column as long as
   * the table.
   */
  function Resolved(mappings: seq<(string, seq<string>)>, t: Table): (mapped: map<string, seq<string>>)
    requires Rectangular(t)
    ensures mapped.Keys == FieldNames(mappings)
    ensures forall f :: f in mapped ==> |mapped[f]| == |t.rows|
    decreases |mappings|
  {
    if mappings == [] then map[]
    else
      var last := mappings[|mappings| - 1];
      FieldNamesOfSnoc(mappings);
      Resolved(mappings[..|mappings| - 1], t)[last.0 := ResolveColumn(t, last.1)]
  }

  /** `map_source_columns(df)`, over any list of field mappings. */
  method MapSourceColumns(mappings: seq<(string, seq<string>)>, t: Table)
    returns (mapped: map<string, seq<string>>)
    requires Rectangular(t)
    ensures mapped == Resolved(mappings, t)
  {
    mapped := map[];
    for i := 0 to |mappings|
      invariant mapped == Resolved(mappings[..i], t)
    {
      var (target, names) := mappings[i];
      ghost var before := mapped;
      var found := false;
      var j := 0;
      while j < |t.headers|
        invariant 0 <= j <= |t.headers|
        invariant !found && mapped == before
        invariant forall jj :: 0 <= jj < j ==> !HeaderMatches(t.headers[jj], names)
      {
        if HeaderMatches(t.headers[j], names) {
          ResolveColumnFirstMatch(t, names, j);
          mapped := mapped[target := Column(t, j)];
          found := true;
          break;
        }
        j := j + 1;
      }
      if !found {
        assert FirstMatch(t.headers, names).None?;
        mapped := mapped[target := Blank(|t.rows|)];
      }
      assert mapped == before[target := ResolveColumn(t, names)];
      ResolvedSnoc(mappings, t, i);
    }
    assert mappings[..|mappings|] == mappings;
  }

  /** Resolving one more mapping adds its field's column to the dictionary. */
  lemma ResolvedSnoc(mappings: seq<(string, seq<string>)>, t: Table, i: nat)
    requires Rectangular(t) && i < |mappings|
    ensures Resolved(mappings[..i + 1], t) == Resolved(mappings[..i], t)[mappings[i].0 := ResolveColumn(t, mappings[i].1)]
  {
    assert mappings[..i + 1][..i] == mappings[..i];
  }

  /** The names of the fields of `mappings`. */
  function FieldNames(mappings: seq<(string, seq<string>)>): set<string> {
    set k | 0 <= k < |mappings| :: mappings[k].0
  }

  /** The field names of a non-empty list are those of all but its last entry, plus the last one's. */
  lemma FieldNamesOfSnoc(mappings: seq<(string, seq<string>)>)
    requires mappings != []
    ensures FieldNames(mappings) == FieldNames(mappings[..|mappings| - 1]) + {mappings[|mappings| - 1].0}
  {
    var init := mappings[..|mappings| - 1];
    forall f | f in FieldNames(mappings) ensures f in FieldNames(init) + {mappings[|mappings| - 1].0} {
      var k :| 0 <= k < |mappings| && mappings[k].0 == f;
      if k < |mappings| - 1 {
        assert init[k].0 == f;
      }
    }
    forall f | f in FieldNames(init) ensures f in FieldNames(mappings) {
      var k :| 0 <= k < |init| && init[k].0 == f;
      assert mappings[k].0 == f;
    }
  }

  /** No field name is declared twice (true of any dictionary's keys). */
  predicate DistinctFields(mappings: seq<(string, seq<string>)>) {
    forall a, b :: 0 <= a < b < |mappings| ==> mappings[a].0 != mappings[b].0
  }

  /** With distinct field names, each field holds the column resolved from its own synonyms. */
  lemma {:induction false} ResolvedLookup(mappings: seq<(string, seq<string>)>, t: Table, k: nat)
    requires Rectangular(t) && DistinctFields(mappings) && k < |mappings|
    ensures mappings[k].0 in Resolved(mappings, t)
    ensures Resolved(mappings, t)[mappings[k].0] == ResolveColumn(t, mappings[k].1)
    decreases |mappings|
  {
    var n := |mappings|;
    if k < n - 1 {
      var init := mappings[..n - 1];
      assert init[k] == mappings[k];
      ResolvedLookup(init, t, k);
    }
  }

  lemma ColumnMappingsDistinct()
    ensures DistinctFields(COLUMN_MAPPINGS)
  {
  }

  /**
   * The document field is always defined, with one entry per row, so the
   * "no document column" check of `process_data` can never fail.
   */
  lemma DocumentKeyAlwaysMapped(t: Table)
    requires Rectangular(t)
    ensures "cpf" in Resolved(COLUMN_MAPPINGS, t)
    ensures |Resolved(COLUMN_MAPPINGS, t)["cpf"]| == |t.rows|
  {
    assert COLUMN_MAPPINGS[2].0 in FieldNames(COLUMN_MAPPINGS);
  }

  /**
   * A field's column comes from the first matching header: no earlier
   * header matches any of its synonyms; the column is all empty when no
   * header matches.
   */
  lemma ResolveColumnFirstMatch(t: Table, synonyms: seq<string>, j: nat)
    requires Rectangular(t) && j < |t.headers|
    requires HeaderMatches(t.headers[j], synonyms)
    requires forall jj :: 0 <= jj < j ==> !HeaderMatches(t.headers[jj], synonyms)
    ensures ResolveColumn(t, synonyms) == Column(t, j)
  {
  }

  lemma ResolveColumnUnmatched(t: Table, synonyms: seq<string>)
    requires Rectangular(t)
    requires forall j :: 0 <= j < |t.headers| ==> !HeaderMatches(t.headers[j], synonyms)
    ensures forall i :: 0 <= i < |t.rows| ==> ResolveColumn(t, synonyms)[i] == ""
  {
  }

  /** `header` matches any synonym list whose first synonym occurs in its lower-cased form at `at`. */
  lemma MatchesAt(header: string, synonyms: seq<string>, at: nat)
    requires 0 < |synonyms| && Lower(synonyms[0]) == synonyms[0]
    requires OccursAt(Lower(header), synonyms[0], at)
    ensures HeaderMatches(header, synonyms)
  {
    ContainsIff(Lower(header), synonyms[0]);
  }

  /**
   * Headers are not consumed: a single header "Nome Fantasia" feeds both
   * `razao_social` (synonym "nome") and `fantasia` (synonym "fantasia").
   * The header and the synonym lists are parameters pinned by `requires`, so
   * that the solver does not unfold the functions applied to literals.
   */
  lemma HeaderFeedsSeveralFields(t: Table, header: string, names: seq<string>, tradeNames: seq<string>)
    requires Rectangular(t) && t.headers == [header] && header == "Nome Fantasia"
    requires names == COLUMN_MAPPINGS[0].1 && tradeNames == COLUMN_MAPPINGS[1].1
    ensures ResolveColumn(t, names) == Column(t, 0)
    ensures ResolveColumn(t, tradeNames) == Column(t, 0)
  {
    var h := Lower(header);
    assert h == "nome fantasia";
    assert names[0] == "nome" && Lower(names[0]) == names[0];
    assert h[0..4] == names[0];
    MatchesAt(header, names, 0);
    assert tradeNames[0] == "fantasia" && Lower(tradeNames[0]) == tradeNames[0];
    assert h[5..13] == tradeNames[0];
    MatchesAt(header, tradeNames, 5);
  }

  /** A needle with a character the text lacks does not occur in it. */
  lemma AbsentCharNotContained(hay: string, needle: string, ch: char)
    requires ch in needle && ch !in hay
    ensures !Contains(hay, needle)
  {
    ContainsIff(hay, needle);
  }

  /**
   * Lower-casing folds no accents: the header "Razão Social" matches none of
   * the `razao_social` synonyms, so that field is not taken from it.
   * The header and the synonym list are parameters pinned by `requires`, so
   * that the solver does not unfold the functions applied to literals.
   */
  lemma AccentedHeaderUnmatched(header: string, names: seq<string>)
    requires header == "Raz\U{E3}o Social" && names == COLUMN_MAPPINGS[0].1
    ensures !HeaderMatches(header, names)
  {
    var h := Lower(header);
    assert h == "raz\U{E3}o social";
    forall k | 0 <= k < |names| ensures !Contains(h, Lower(names[k])) {
      var name := names[k];
      assert Lower(name) == name;
      if k == 1 {
        assert |name| == |h| && name[3] != h[3];
        ContainsIff(h, name);
      } else {
        var ch := if k == 3 then 'e' else 'n';
        assert ch in name;
        assert ch !in h;
        AbsentCharNotContained(h, name, ch);
      }
    }
  }
}
