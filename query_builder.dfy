/** The per-source request URL of `getAllMonuments`: the optional criteria
    become `field=value`, `LIKE` and year-window clauses in the dataset's own
    field names, joined by " AND " behind a `?where=` marker. */
module QueryBuilder {
  import opened Values
  import opened Strings
  import opened Sources

  /** The optional criteria of a monument query (the geographic ones are
      handled after fetching). */
  datatype Criteria = Criteria(ville: Option<string>, date: Option<int>, monumentType: Option<string>, id: Option<string>)

  const NoCriteria := Criteria(None, None, None, None)

  const WhereMarker := "?where="
  const Separator := " AND "
  const LowerYearPrefix := "datation_bati_lmcu>="
  const UpperYearPrefix := "datation_bati_lmcu<="

  /** Whether some criterion is truthy, so that a where clause is attached. */
  predicate AnyCriterion(c: Criteria)
  {
    TruthyText(c.id) || TruthyText(c.ville) || TruthyText(c.monumentType) || TruthyInt(c.date)
  }

  /** The builder's own dataset test, made on the base URL. */
  predicate NamesLille(baseUrl: string)
  {
    Contains(baseUrl, LilleDataset)
  }

  function IdClause(baseUrl: string, id: string): string
  {
    if NamesLille(baseUrl) then "id_merimee=" + id else "monum_his_com_id='" + id + "'"
  }

  function CommuneClause(ville: string): string
  {
    "commune='" + ville + "'"
  }

  function TypeClause(baseUrl: string, t: string): string
  {
    if NamesLille(baseUrl) then "denomination LIKE '%" + t + "%'" else "appellation_courante LIKE '%" + t + "%'"
  }

  function LowerYearClause(date: int): string
  {
    LowerYearPrefix + IntToString(date - 10)
  }

  function UpperYearClause(date: int): string
  {
    UpperYearPrefix + IntToString(date + 10)
  }

  function IdClauses(baseUrl: string, c: Criteria): seq<string>
  {
    if TruthyText(c.id) then [IdClause(baseUrl, c.id.value)] else []
  }

  function CommuneClauses(c: Criteria): seq<string>
  {
    if TruthyText(c.ville) then [CommuneClause(c.ville.value)] else []
  }

  function TypeClauses(baseUrl: string, c: Criteria): seq<string>
  {
    if TruthyText(c.monumentType) then [TypeClause(baseUrl, c.monumentType.value)] else []
  }

  function YearClauses(c: Criteria): seq<string>
  {
    if TruthyInt(c.date) then [LowerYearClause(c.date.value), UpperYearClause(c.date.value)] else []
  }

  /** The clauses for one base URL: identifier, commune, type, then the two
      bounds of the year window. */
  function Clauses(baseUrl: string, c: Criteria): seq<string>
  {
    IdClauses(baseUrl, c) + CommuneClauses(c) + TypeClauses(baseUrl, c) + YearClauses(c)
  }

  /** The where clause appended to a base URL: none at all without clauses. */
  function WhereSuffix(clauses: seq<string>): string
  {
    if |clauses| > 0 then WhereMarker + Join(clauses, Separator) else ""
  }

  function RequestUrl(baseUrl: string, c: Criteria): string
  {
    baseUrl + WhereSuffix(Clauses(baseUrl, c))
  }

  /** Builds the request URL of one source by pushing the clauses one by one. */
  method BuildRequestUrl(baseUrl: string, c: Criteria) returns (url: string)
    ensures url == RequestUrl(baseUrl, c)
  {
    var queryParameters: seq<string> := [];
    if TruthyText(c.id) {
      if Contains(baseUrl, LilleDataset) {
        queryParameters := queryParameters + ["id_merimee=" + c.id.value];
      } else {
        queryParameters := queryParameters + ["monum_his_com_id='" + c.id.value + "'"];
      }
    }
    assert queryParameters == IdClauses(baseUrl, c);
    if TruthyText(c.ville) {
      queryParameters := queryParameters + ["commune='" + c.ville.value + "'"];
    }
    assert queryParameters == IdClauses(baseUrl, c) + CommuneClauses(c);
    if TruthyText(c.monumentType) {
      if Contains(baseUrl, LilleDataset) {
        queryParameters := queryParameters + ["denomination LIKE '%" + c.monumentType.value + "%'"];
      } else {
        queryParameters := queryParameters + ["appellation_courante LIKE '%" + c.monumentType.value + "%'"];
      }
    }
    assert queryParameters == IdClauses(baseUrl, c) + CommuneClauses(c) + TypeClauses(baseUrl, c);
    var beforeYear := queryParameters;
    if TruthyInt(c.date) {
      var startYear := c.date.value - 10;
      var endYear := c.date.value + 10;
      queryParameters := queryParameters + [LowerYearPrefix + IntToString(startYear)];
      queryParameters := queryParameters + [UpperYearPrefix + IntToString(endYear)];
      assert queryParameters == beforeYear + [LowerYearClause(c.date.value), UpperYearClause(c.date.value)];
    }
    assert queryParameters == beforeYear + YearClauses(c);
    var whereClause := if |queryParameters| > 0 then WhereMarker + Join(queryParameters, Separator) else "";
    url := baseUrl + whereClause;
  }

  /** `baseUrls.map(...)`: one request URL per source, in base-URL order. */
  method BuildRequestUrls(c: Criteria) returns (urls: seq<string>)
    ensures |urls| == |BaseUrls|
    ensures forall k :: 0 <= k < |urls| ==> urls[k] == RequestUrl(BaseUrls[k], c)
  {
    urls := [];
    for k := 0 to |BaseUrls|
      invariant |urls| == k
      invariant forall j :: 0 <= j < k ==> urls[j] == RequestUrl(BaseUrls[j], c)
    {
      var url := BuildRequestUrl(BaseUrls[k], c);
      urls := urls + [url];
    }
  }

  /** A request URL is its base URL exactly when no criterion is truthy, and
      otherwise the base URL, the `?where=` marker and the clauses joined by
      " AND ". */
  lemma BareUrlIffNoCriteria(baseUrl: string, c: Criteria)
    ensures RequestUrl(baseUrl, c) == baseUrl <==> !AnyCriterion(c)
    ensures AnyCriterion(c) ==>
      RequestUrl(baseUrl, c) == baseUrl + (WhereMarker + Join(Clauses(baseUrl, c), Separator))
    ensures RequestUrl(baseUrl, c)[..|baseUrl|] == baseUrl
  {
    var q := Clauses(baseUrl, c);
    assert |q| > 0 <==> AnyCriterion(c);
    if |q| > 0 {
      assert |RequestUrl(baseUrl, c)| > |baseUrl|;
    }
  }

  /** Each truthy text criterion adds one clause and a truthy year adds two. */
  lemma ClauseCount(baseUrl: string, c: Criteria)
    ensures |Clauses(baseUrl, c)| ==
      (if TruthyText(c.id) then 1 else 0) + (if TruthyText(c.ville) then 1 else 0)
      + (if TruthyText(c.monumentType) then 1 else 0) + (if TruthyInt(c.date) then 2 else 0)
  {
  }

  /** A truthy year d ends the clauses with the bounds d - 10 and d + 10,
      whatever the source; each bound reads back as that integer. A year of 0,
      like no year, leaves the clauses as they are without one. */
  lemma YearWindow(baseUrl: string, c: Criteria)
    ensures var q := Clauses(baseUrl, c);
      TruthyInt(c.date) ==>
        |q| >= 2
        && q[|q| - 2][..|LowerYearPrefix|] == LowerYearPrefix
        && ParseInteger(q[|q| - 2][|LowerYearPrefix|..]) == Some(c.date.value - 10)
        && q[|q| - 1][..|UpperYearPrefix|] == UpperYearPrefix
        && ParseInteger(q[|q| - 1][|UpperYearPrefix|..]) == Some(c.date.value + 10)
    ensures var q := Clauses(baseUrl, c);
      !TruthyInt(c.date) ==> q == Clauses(baseUrl, c.(date := None))
  {
    if TruthyInt(c.date) {
      var d := c.date.value;
      IntToStringRoundTrip(d - 10);
      IntToStringRoundTrip(d + 10);
      assert LowerYearClause(d)[|LowerYearPrefix|..] == IntToString(d - 10);
      assert UpperYearClause(d)[|UpperYearPrefix|..] == IntToString(d + 10);
    }
  }

  /** The year clauses are the same for every source. */
  lemma YearClausesSameForAllSources(c: Criteria, j: nat, k: nat)
    requires j < 3 && k < 3 && TruthyInt(c.date)
    ensures var p, q := Clauses(BaseUrls[j], c), Clauses(BaseUrls[k], c);
      p[|p| - 2..] == q[|q| - 2..]
  {
    var p, q := Clauses(BaseUrls[j], c), Clauses(BaseUrls[k], c);
    var w := [LowerYearClause(c.date.value), UpperYearClause(c.date.value)];
    assert p[|p| - 2..] == w && q[|q| - 2..] == w;
  }

  /** The builder's dataset test singles out the Lille base URL. */
  lemma NamesLilleOnlyLille(k: nat)
    requires k < 3
    ensures NamesLille(BaseUrls[k]) <==> k == 1
  {
    var src := SourceAt(k);
    assert BaseUrls[k] + "" == BaseUrls[k];
    forall other: Source
      ensures !Contains("", Dataset(other))
    {
      NotContainsLonger("", Dataset(other));
    }
    DetectBaseUrl(src, "");
  }

  /** The field names each source receives: Lille matches the identifier
      unquoted against id_merimee and the type against denomination; the other
      two quote it against monum_his_com_id and use appellation_courante. The
      commune clause is the same everywhere. */
  lemma FieldNames(k: nat, v: string)
    requires k < 3
    ensures k == 1 ==> IdClause(BaseUrls[k], v) == "id_merimee=" + v
    ensures k == 1 ==> TypeClause(BaseUrls[k], v) == "denomination LIKE '%" + v + "%'"
    ensures k != 1 ==> IdClause(BaseUrls[k], v) == "monum_his_com_id='" + v + "'"
    ensures k != 1 ==> TypeClause(BaseUrls[k], v) == "appellation_courante LIKE '%" + v + "%'"
    ensures CommuneClause(v) == "commune='" + v + "'"
  {
    NamesLilleOnlyLille(k);
  }

  /** Some truthy text criterion holds p. */
  predicate CriterionMentions(c: Criteria, p: string)
  {
    (TruthyText(c.id) && Contains(c.id.value, p))
    || (TruthyText(c.ville) && Contains(c.ville.value, p))
    || (TruthyText(c.monumentType) && Contains(c.monumentType.value, p))
  }

  /** No criterion names the dataset of a source other than src. */
  predicate NamesNoOtherDataset(c: Criteria, src: Source)
  {
    forall other :: other != src ==> !CriterionMentions(c, Dataset(other))
  }

  lemma IntToStringWithoutQ(i: int)
    ensures 'q' !in IntToString(i)
  {
    var digits := NatToString(if i < 0 then -i else i);
    assert 'q' !in digits;
  }

  /** A value between two occurrences of a character d, after and before
      texts without a 'q', holds a pattern with a 'q' and without d only if
      the value does. */
  lemma EnclosedAvoids(a: string, d: char, v: string, z: string, p: string)
    requires 'q' in p && d !in p && 'q' !in a && 'q' !in z
    requires !Contains(v, p)
    ensures !Contains(a + [d] + v + ([d] + z), p)
  {
    NotContainsWithoutChar(a, p, 'q');
    NotContainsWithoutChar(z, p, 'q');
    NotContainsCut(v, d, z, p);
    NotContainsCut(a, d, v + [d] + z, p);
    assert a + [d] + v + ([d] + z) == a + [d] + (v + [d] + z);
  }

  /** An identifier clause holds a dataset-like name only if the identifier
      does. */
  lemma IdClauseAvoids(baseUrl: string, id: string, p: string)
    requires NameLike(p) && !Contains(id, p)
    ensures !Contains(IdClause(baseUrl, id), p)
  {
    NameLikeLacksMarks(p);
    if NamesLille(baseUrl) {
      assert "id_merimee=" == "id_merimee" + ['='];
      assert 'q' !in "id_merimee";
      NotContainsWithoutChar("id_merimee", p, 'q');
      NotContainsCut("id_merimee", '=', id, p);
    } else {
      assert "monum_his_com_id='" == "monum_his_com_id=" + ['\''];
      assert "'" == ['\''] + "";
      EnclosedAvoids("monum_his_com_id=", '\'', id, "", p);
    }
  }

  /** A commune clause holds a dataset-like name only if the commune does. */
  lemma CommuneClauseAvoids(ville: string, p: string)
    requires NameLike(p) && !Contains(ville, p)
    ensures !Contains(CommuneClause(ville), p)
  {
    NameLikeLacksMarks(p);
    assert "commune='" == "commune=" + ['\''];
    assert "'" == ['\''] + "";
    EnclosedAvoids("commune=", '\'', ville, "", p);
  }

  /** A type clause holds a dataset-like name only if the type does. */
  lemma TypeClauseAvoids(baseUrl: string, t: string, p: string)
    requires NameLike(p) && !Contains(t, p)
    ensures !Contains(TypeClause(baseUrl, t), p)
  {
    NameLikeLacksMarks(p);
    assert "%'" == ['%'] + "'";
    if NamesLille(baseUrl) {
      assert "denomination LIKE '%" == "denomination LIKE '" + ['%'];
      EnclosedAvoids("denomination LIKE '", '%', t, "'", p);
    } else {
      assert "appellation_courante LIKE '%" == "appellation_courante LIKE '" + ['%'];
      EnclosedAvoids("appellation_courante LIKE '", '%', t, "'", p);
    }
  }

  /** The year clauses hold no 'q', so no dataset-like name. */
  lemma YearClausesAvoid(c: Criteria, p: string)
    requires NameLike(p)
    ensures PiecesAvoid(YearClauses(c), p)
  {
    if TruthyInt(c.date) {
      var d := c.date.value;
      IntToStringWithoutQ(d - 10);
      IntToStringWithoutQ(d + 10);
      assert 'q' !in LowerYearPrefix && 'q' !in UpperYearPrefix;
      NotContainsWithoutChar(LowerYearClause(d), p, 'q');
      NotContainsWithoutChar(UpperYearClause(d), p, 'q');
    }
  }

  /** No clause holds a dataset-like name unless a criterion does. */
  lemma ClausesAvoid(baseUrl: string, c: Criteria, p: string)
    requires NameLike(p) && !CriterionMentions(c, p)
    ensures PiecesAvoid(Clauses(baseUrl, c), p)
  {
    var ids, communes, types := IdClauses(baseUrl, c), CommuneClauses(c), TypeClauses(baseUrl, c);
    if TruthyText(c.id) {
      IdClauseAvoids(baseUrl, c.id.value, p);
    }
    if TruthyText(c.ville) {
      CommuneClauseAvoids(c.ville.value, p);
    }
    if TruthyText(c.monumentType) {
      TypeClauseAvoids(baseUrl, c.monumentType.value, p);
    }
    YearClausesAvoid(c, p);
    PiecesAvoidConcat(ids, communes, p);
    PiecesAvoidConcat(ids + communes, types, p);
    PiecesAvoidConcat(ids + communes + types, YearClauses(c), p);
  }

  /** Clauses joined by " AND " hold a dataset-like name only if a clause
      does. */
  lemma JoinedClausesAvoid(q: seq<string>, p: string)
    requires NameLike(p) && |q| > 0 && PiecesAvoid(q, p)
    ensures !Contains(Join(q, Separator), p)
  {
    NameLikeLacksMarks(p);
    assert Separator == [' '] + "AND" + [' '];
    assert 'q' !in "AND";
    NotContainsWithoutChar("AND", p, 'q');
    JoinAvoids(q, ' ', "AND", p);
  }

  /** The `?where=` marker adds no dataset-like name. */
  lemma MarkerAvoids(joined: string, p: string)
    requires NameLike(p) && !Contains(joined, p)
    ensures !Contains(WhereMarker + joined, p)
  {
    NameLikeLacksMarks(p);
    assert WhereMarker == "?where" + ['='];
    assert 'q' !in "?where";
    NotContainsWithoutChar("?where", p, 'q');
    NotContainsCut("?where", '=', joined, p);
  }

  /** The where clause holds a dataset-like name only if a criterion does. */
  lemma WhereSuffixAvoids(baseUrl: string, c: Criteria, p: string)
    requires NameLike(p) && !CriterionMentions(c, p)
    ensures !Contains(WhereSuffix(Clauses(baseUrl, c)), p)
  {
    var q := Clauses(baseUrl, c);
    if |q| > 0 {
      ClausesAvoid(baseUrl, c, p);
      JoinedClausesAvoid(q, p);
      MarkerAvoids(Join(q, Separator), p);
    } else {
      NotContainsLonger("", p);
    }
  }

  lemma IdClauseHolds(baseUrl: string, id: string)
    ensures Contains(IdClause(baseUrl, id), id)
  {
    if NamesLille(baseUrl) {
      ContainsInMiddle("id_merimee=", id, "");
      assert "id_merimee=" + id + "" == "id_merimee=" + id;
    } else {
      ContainsInMiddle("monum_his_com_id='", id, "'");
    }
  }

  lemma TypeClauseHolds(baseUrl: string, t: string)
    ensures Contains(TypeClause(baseUrl, t), t)
  {
    if NamesLille(baseUrl) {
      ContainsInMiddle("denomination LIKE '%", t, "%'");
    } else {
      ContainsInMiddle("appellation_courante LIKE '%", t, "%'");
    }
  }

  /** Whatever a clause holds, the request URL holds. */
  lemma ClauseInUrl(baseUrl: string, c: Criteria, k: nat, v: string)
    requires k < |Clauses(baseUrl, c)| && Contains(Clauses(baseUrl, c)[k], v)
    ensures Contains(RequestUrl(baseUrl, c), v)
  {
    var q := Clauses(baseUrl, c);
    var joined := Join(q, Separator);
    JoinContainsPart(q, Separator, k);
    ContainsTransitive(joined, q[k], v);
    ContainsInTail(WhereMarker, joined, v);
    ContainsInTail(baseUrl, WhereMarker + joined, v);
    assert RequestUrl(baseUrl, c) == baseUrl + (WhereMarker + joined);
  }

  /** Every truthy text criterion appears verbatim in the request URL. */
  lemma CriteriaInUrl(baseUrl: string, c: Criteria)
    ensures TruthyText(c.id) ==> Contains(RequestUrl(baseUrl, c), c.id.value)
    ensures TruthyText(c.ville) ==> Contains(RequestUrl(baseUrl, c), c.ville.value)
    ensures TruthyText(c.monumentType) ==> Contains(RequestUrl(baseUrl, c), c.monumentType.value)
  {
    var q := Clauses(baseUrl, c);
    var n := |IdClauses(baseUrl, c)|;
    var m := n + |CommuneClauses(c)|;
    if TruthyText(c.id) {
      IdClauseHolds(baseUrl, c.id.value);
      assert q[0] == IdClause(baseUrl, c.id.value);
      ClauseInUrl(baseUrl, c, 0, c.id.value);
    }
    if TruthyText(c.ville) {
      ContainsInMiddle("commune='", c.ville.value, "'");
      assert q[n] == CommuneClause(c.ville.value);
      ClauseInUrl(baseUrl, c, n, c.ville.value);
    }
    if TruthyText(c.monumentType) {
      TypeClauseHolds(baseUrl, c.monumentType.value);
      assert q[m] == TypeClause(baseUrl, c.monumentType.value);
      ClauseInUrl(baseUrl, c, m, c.monumentType.value);
    }
  }

  /** Whatever a criterion holds, the request URL holds. */
  lemma MentionedInUrl(baseUrl: string, c: Criteria, p: string)
    requires CriterionMentions(c, p)
    ensures Contains(RequestUrl(baseUrl, c), p)
  {
    var url := RequestUrl(baseUrl, c);
    CriteriaInUrl(baseUrl, c);
    if TruthyText(c.id) && Contains(c.id.value, p) {
      ContainsTransitive(url, c.id.value, p);
    } else if TruthyText(c.ville) && Contains(c.ville.value, p) {
      ContainsTransitive(url, c.ville.value, p);
    } else {
      ContainsTransitive(url, c.monumentType.value, p);
    }
  }

  /** Detection after building: a request URL is recognised as exactly its
      own source if and only if no criterion names another source's
      dataset. */
  lemma RequestUrlDetected(k: nat, c: Criteria)
    requires k < 3
    ensures Detect(RequestUrl(BaseUrls[k], c)) == Intended(SourceAt(k)) <==> NamesNoOtherDataset(c, SourceAt(k))
  {
    var src, url := SourceAt(k), RequestUrl(BaseUrls[k], c);
    var suffix := WhereSuffix(Clauses(BaseUrls[k], c));
    if NamesNoOtherDataset(c, src) {
      forall other | other != src
        ensures !Contains(suffix, Dataset(other))
      {
        DatasetNameLike(other);
        WhereSuffixAvoids(BaseUrls[k], c, Dataset(other));
      }
      assert suffix == [] || suffix[0] == WhereMarker[0] == '?';
      DetectBaseUrl(src, suffix);
    } else {
      var other :| other != src && CriterionMentions(c, Dataset(other));
      MentionedInUrl(BaseUrls[k], c, Dataset(other));
      OtherDatasetSpoilsDetection(url, src, other);
    }
  }

  /** Criteria reach the dataset detection too: a type criterion naming the
      Lille dataset makes the Armentieres request look like a Lille one as
      well, so its records get their identifier and type from the Lille
      fields. */
  lemma TypeCriterionCanMimicLille()
    ensures var url := RequestUrl(BaseUrls[0], Criteria(None, None, Some(LilleDataset), None));
      Detect(url).isArmentiere && Detect(url).isLille
  {
    var c := Criteria(None, None, Some(LilleDataset), None);
    CriteriaInUrl(BaseUrls[0], c);
    OwnDatasetDetected(Armentieres, WhereSuffix(Clauses(BaseUrls[0], c)));
  }
}
