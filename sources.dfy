/** The three open-data endpoints the service queries, and the way
    `fetchMonuments` recognises which one a request URL belongs to: by looking
    for each dataset's name anywhere in the URL, where clause included. */
module Sources {
  import opened Strings

  const Host := "https://opendata.lillemetropole.fr"
  const CatalogPath := "/api/explore/v2.1/catalog/datasets"
  const ArmentieresDataset := "monuments-historiques-armentieres"
  const LilleDataset := "monuments-historiques-lille"
  const RoubaixDataset := "liste-monuments-historiques-de-roubaix"

  /** The records endpoint of a dataset. */
  function BaseUrl(dataset: string): string
  {
    Host + CatalogPath + "/" + dataset + "/records"
  }

  datatype Source = Armentieres | Lille | Roubaix

  function Dataset(src: Source): string
  {
    match src
    case Armentieres => ArmentieresDataset
    case Lille => LilleDataset
    case Roubaix => RoubaixDataset
  }

  /** The base URLs, in the order the service lists them. */
  const BaseUrls: seq<string> := [BaseUrl(ArmentieresDataset), BaseUrl(LilleDataset), BaseUrl(RoubaixDataset)]

  /** The source listed at position k of BaseUrls. */
  function SourceAt(k: nat): (src: Source)
    requires k < 3
    ensures BaseUrls[k] == BaseUrl(Dataset(src))
  {
    if k == 0 then Armentieres else if k == 1 then Lille else Roubaix
  }

  /** The three flags `fetchMonuments` computes from its URL. They are
      independent tests, so more than one of them can hold. */
  datatype Detection = Detection(isLille: bool, isRoubaix: bool, isArmentiere: bool)

  function Detect(url: string): Detection
  {
    Detection(Contains(url, LilleDataset), Contains(url, RoubaixDataset), Contains(url, ArmentieresDataset))
  }

  /** The flags a URL of src would raise if nothing but its base URL named a dataset. */
  function Intended(src: Source): Detection
  {
    Detection(src == Lille, src == Roubaix, src == Armentieres)
  }

  /** A URL holding the name of a dataset other than src's is not detected
      as exactly src. */
  lemma OtherDatasetSpoilsDetection(url: string, src: Source, other: Source)
    requires other != src && Contains(url, Dataset(other))
    ensures Detect(url) != Intended(src)
  {
  }

  /** No dataset name other than src's occurs in s. */
  predicate NoOtherDatasetIn(s: string, src: Source)
  {
    forall other :: other != src ==> !Contains(s, Dataset(other))
  }

  /** The shape of the dataset names the detection proofs rest on: lower-case
      letters and hyphens, with at least one 'q'. Such a name holds none of
      the characters the URLs put around their variable parts. */
  predicate NameLike(p: string)
  {
    'q' in p && Word(p)
  }

  /** Lower-case letters and hyphens only. */
  predicate Word(p: string)
  {
    forall i :: 0 <= i < |p| ==> 'a' <= p[i] <= 'z' || p[i] == '-'
  }

  lemma NameLikeLacksMarks(p: string)
    requires NameLike(p)
    ensures '/' !in p && '?' !in p && '=' !in p && '\'' !in p && '%' !in p && ' ' !in p
  {
  }

  lemma NoQInHostPath()
    ensures 'q' !in Host && 'q' !in CatalogPath
  {
  }

  /** The Armentieres name has no letter 'l', which the Lille name has. */
  lemma ArmentieresLacksLille()
    ensures !Contains(ArmentieresDataset, LilleDataset)
  {
    assert LilleDataset[22] == 'l';
    assert 'l' !in ArmentieresDataset;
    if Contains(ArmentieresDataset, LilleDataset) {
      ContainsHasChar(ArmentieresDataset, LilleDataset, 'l');
      assert false;
    }
  }

  /** A pattern that starts with neither of the first two characters of a
      text at most one longer than it does not occur in it. */
  lemma NotContainsAtStart(s: string, p: string)
    requires 0 < |p| <= |s| <= |p| + 1
    requires s[0] != p[0] && (|s| > |p| ==> s[1] != p[0])
    ensures !Contains(s, p)
  {
    if Contains(s, p) {
      var i :| 0 <= i <= |s| && OccursAt(s, p, i);
      assert false;
    }
  }

  /** Cut at its 'd', the Roubaix name leaves a left part that only just fits
      the Lille name and does not start like it. */
  lemma RoubaixLacksLille()
    ensures !Contains(RoubaixDataset, LilleDataset)
  {
    var left, right := "liste-monuments-historiques-", "e-roubaix";
    assert RoubaixDataset == left + ['d'] + right;
    assert 'd' !in LilleDataset;
    assert |left| == 28 && |LilleDataset| == 27;
    assert left[0] == 'l' && left[1] == 'i' && LilleDataset[0] == 'm';
    NotContainsAtStart(left, LilleDataset);
    if Contains(RoubaixDataset, LilleDataset) {
      ContainsAcross(left, 'd', right, LilleDataset);
      assert false;
    }
  }

  /** The Roubaix name cut at its first 'l' and at its 'd'. */
  lemma RoubaixCuts()
    ensures RoubaixDataset == ([] + ['l'] + "iste-monuments-historiques-") + ['d'] + "e-roubaix"
  {
  }

  lemma ArmentieresLacksLAndD()
    ensures 'd' !in ArmentieresDataset && 'l' !in ArmentieresDataset
  {
  }

  /** Cut at its 'l' and its 'd', which the Armentieres name lacks, the
      Roubaix name leaves pieces shorter than that name. */
  lemma RoubaixLacksArmentieres()
    ensures !Contains(RoubaixDataset, ArmentieresDataset)
  {
    var p := ArmentieresDataset;
    var tail, right := "iste-monuments-historiques-", "e-roubaix";
    ArmentieresLacksLAndD();
    RoubaixCuts();
    NotContainsLonger([], p);
    NotContainsLonger(tail, p);
    NotContainsLonger(right, p);
    NotContainsCut([], 'l', tail, p);
    NotContainsCut([] + ['l'] + tail, 'd', right, p);
  }

  lemma ArmentieresWord()
    ensures Word(ArmentieresDataset)
  {
  }

  lemma ArmentieresNameLike()
    ensures NameLike(ArmentieresDataset)
  {
    ArmentieresWord();
    assert ArmentieresDataset[17] == 'q';
  }

  lemma LilleWord()
    ensures Word(LilleDataset)
  {
  }

  lemma LilleNameLike()
    ensures NameLike(LilleDataset)
  {
    LilleWord();
    assert LilleDataset[17] == 'q';
  }

  lemma RoubaixWord()
    ensures Word(RoubaixDataset)
  {
  }

  lemma RoubaixNameLike()
    ensures NameLike(RoubaixDataset)
  {
    RoubaixWord();
    assert RoubaixDataset[23] == 'q';
  }

  lemma DatasetNameLike(src: Source)
    ensures NameLike(Dataset(src))
  {
    match src
    case Armentieres => ArmentieresNameLike();
    case Lille => LilleNameLike();
    case Roubaix => RoubaixNameLike();
  }

  /** No dataset name occurs inside another one. */
  lemma DatasetsApart(src: Source, other: Source)
    requires src != other
    ensures !Contains(Dataset(src), Dataset(other))
  {
    if src == Armentieres && other == Lille {
      ArmentieresLacksLille();
    } else if src == Roubaix && other == Lille {
      RoubaixLacksLille();
    } else if src == Roubaix && other == Armentieres {
      RoubaixLacksArmentieres();
    } else {
      assert |Dataset(src)| < |Dataset(other)|;
    }
  }

  /** A base URL followed by anything, cut at the slashes around its dataset name. */
  lemma BaseUrlPieces(ds: string, suffix: string)
    ensures BaseUrl(ds) + suffix == (Host + CatalogPath) + ['/'] + (ds + ['/'] + ("records" + suffix))
  {
    assert "/records" == ['/'] + "records";
  }

  /** Whatever follows a base URL, its own dataset name occurs in it. */
  lemma OwnDatasetDetected(src: Source, suffix: string)
    ensures Contains(BaseUrl(Dataset(src)) + suffix, Dataset(src))
  {
    var ds := Dataset(src);
    var head := Host + CatalogPath;
    var url := BaseUrl(ds) + suffix;
    BaseUrlPieces(ds, suffix);
    assert url[|head| + 1..|head| + 1 + |ds|] == ds;
    assert OccursAt(url, ds, |head| + 1);
  }

  /** The end of a base URL followed by nothing or by a query string holds
      a name-like pattern only if the query string does. */
  lemma RecordsAvoid(suffix: string, p: string)
    requires NameLike(p) && (suffix == [] || suffix[0] == '?')
    requires !Contains(suffix, p)
    ensures !Contains("records" + suffix, p)
  {
    assert 'q' !in "records";
    NotContainsWithoutChar("records", p, 'q');
    if suffix == [] {
      assert "records" + suffix == "records";
    } else {
      var query := suffix[1..];
      assert suffix == [suffix[0]] + query;
      if Contains(query, p) {
        ContainsInTail([suffix[0]], query, p);
      }
      NameLikeLacksMarks(p);
      NotContainsCut("records", '?', query, p);
      assert "records" + suffix == "records" + ['?'] + query;
    }
  }

  /** When what follows a base URL is empty or starts a query with '?', no
      other dataset name occurs in the whole URL unless it occurs in what
      follows. */
  lemma OtherDatasetNotDetected(src: Source, other: Source, suffix: string)
    requires other != src && (suffix == [] || suffix[0] == '?')
    requires !Contains(suffix, Dataset(other))
    ensures !Contains(BaseUrl(Dataset(src)) + suffix, Dataset(other))
  {
    var ds, p := Dataset(src), Dataset(other);
    var head := Host + CatalogPath;
    var rest := "records" + suffix;
    BaseUrlPieces(ds, suffix);
    NoQInHostPath();
    DatasetNameLike(other);
    NameLikeLacksMarks(p);
    DatasetsApart(src, other);
    NotContainsWithoutChar(head, p, 'q');
    RecordsAvoid(suffix, p);
    NotContainsCut(ds, '/', rest, p);
    NotContainsCut(head, '/', ds + ['/'] + rest, p);
  }

  /** A base URL followed by nothing or by a query string is detected as
      exactly its own source if and only if no other dataset name occurs in
      the query string. */
  lemma DetectBaseUrl(src: Source, suffix: string)
    requires suffix == [] || suffix[0] == '?'
    ensures Detect(BaseUrl(Dataset(src)) + suffix) == Intended(src) <==> NoOtherDatasetIn(suffix, src)
  {
    var url := BaseUrl(Dataset(src)) + suffix;
    if NoOtherDatasetIn(suffix, src) {
      OwnDatasetDetected(src, suffix);
      forall other: Source | other != src
        ensures !Contains(url, Dataset(other))
      {
        OtherDatasetNotDetected(src, other, suffix);
      }
      assert LilleDataset == Dataset(Lille) && RoubaixDataset == Dataset(Roubaix);
      assert ArmentieresDataset == Dataset(Armentieres);
    } else {
      var other :| other != src && Contains(suffix, Dataset(other));
      ContainsInTail(BaseUrl(Dataset(src)), suffix, Dataset(other));
      OtherDatasetSpoilsDetection(url, src, other);
    }
  }
}
