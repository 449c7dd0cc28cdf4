/**
 * `YBSNowScraper.parse_orders_table`: pick the Orders table out of the page,
 * first through a few known selectors, then by scoring every table's header
 * labels against a vocabulary of order-related words.
 *
 * The HTML itself is not parsed here. A page is given by what BeautifulSoup's
 * `find` and `pd.read_html` make of it.
 */
module TableChoice {
  import opened Wrappers
  import opened Strings
  import opened Frames
  import opened Cleaning

  /** `soup.find("table", attrs={attr: value})`. */
  datatype Selector = Selector(attr: string, value: string)

  /** The known selectors, in the order they are tried. */
  const Selectors: seq<Selector> := [
    Selector("id", "orders"),
    Selector("class", "orders"),
    Selector("class", "table table-striped")
  ]

  /**
   * What one selector gives: no matching element; the tables `pd.read_html`
   * reads from the matched element; or `pd.read_html` raising on it.
   */
  datatype FindOutcome = NoMatch | Parsed(tables: seq<Frame>) | ParseRaised

  /**
   * What `pd.read_html` makes of the whole page: the tables it reads, a
   * `ValueError` (which the script catches), or any other exception (which
   * it does not).
   */
  datatype PageRead = Tables(tables: seq<Frame>) | ValueErrorRaised | OtherRaised

  /**
   * A fetched Orders page: the outcome of each selector (a selector absent
   * from `found` matches nothing) and what `pd.read_html` reads from the whole
   * page.
   */
  datatype Html = Html(found: map<Selector, FindOutcome>, readAll: PageRead)

  function Find(doc: Html, sel: Selector): FindOutcome
  {
    if sel in doc.found then doc.found[sel] else NoMatch
  }

  /**
   * The tables the fallback scores: a `ValueError` from `pd.read_html` leaves
   * none (and so does any other exception, which ends the choice before the
   * tables are looked at).
   */
  function FallbackTables(doc: Html): seq<Frame>
  {
    if doc.readAll.Tables? then doc.readAll.tables else []
  }

  // ---------------------------------------------------------------- fast path

  /** A selector outcome that ends the fast path: a non-empty table list, or an exception. */
  predicate Decisive(o: FindOutcome)
  {
    o.ParseRaised? || (o.Parsed? && |o.tables| > 0)
  }

  datatype FastPathOutcome = Hit(table: Frame) | Miss | Raised

  /** The fast path over `sels`: the first decisive selector settles it. */
  function FastPath(doc: Html, sels: seq<Selector>): FastPathOutcome
  {
    if sels == [] then Miss
    else match Find(doc, sels[0])
      case NoMatch => FastPath(doc, sels[1..])
      case ParseRaised => Raised
      case Parsed(ts) => if |ts| > 0 then Hit(ts[0]) else FastPath(doc, sels[1..])
  }

  /** What a decisive outcome makes of the fast path. */
  function Settle(o: FindOutcome): FastPathOutcome
  {
    if o.Parsed? && |o.tables| > 0 then Hit(o.tables[0]) else Raised
  }

  /** `sels[i]` is the first decisive selector. */
  predicate FirstDecisiveAt(doc: Html, sels: seq<Selector>, i: int)
  {
    && 0 <= i < |sels|
    && Decisive(Find(doc, sels[i]))
    && forall j | 0 <= j < i :: !Decisive(Find(doc, sels[j]))
  }

  /**
   * The fast path misses exactly when no selector is decisive; otherwise it is
   * settled by the first decisive selector alone, whatever the later ones give.
   */
  lemma {:induction false} FastPathFirstDecisive(doc: Html, sels: seq<Selector>)
    ensures FastPath(doc, sels).Miss? <==> forall i | 0 <= i < |sels| :: !Decisive(Find(doc, sels[i]))
    ensures forall i | FirstDecisiveAt(doc, sels, i) :: FastPath(doc, sels) == Settle(Find(doc, sels[i]))
  {
    if sels != [] {
      FastPathFirstDecisive(doc, sels[1..]);
      forall i | FirstDecisiveAt(doc, sels, i) ensures FastPath(doc, sels) == Settle(Find(doc, sels[i])) {
        if i > 0 {
          assert FirstDecisiveAt(doc, sels[1..], i - 1);
        }
      }
      if !Decisive(Find(doc, sels[0])) {
        forall i | 0 <= i < |sels[1..]| ensures sels[1..][i] == sels[i + 1] { }
      }
    }
  }

  // ---------------------------------------------------------------- heuristic

  /** `preferred_cols`: the vocabulary a header label is scored against. */
  const PreferredCols: seq<string> := [
    "Order", "Order #", "Order ID", "PO", "Customer", "Workstation", "Status", "Date", "Due"
  ]

  /** `any(pc.lower() in text for pc in terms)`, for a label `text` already lower-cased. */
  predicate MatchesAny(text: string, terms: seq<string>)
  {
    terms != [] && (Contains(text, Lower(terms[0])) || MatchesAny(text, terms[1..]))
  }

  /** `any(pc.lower() in str(c).lower() for pc in preferred_cols)`. */
  predicate HeaderMatches(name: string)
  {
    MatchesAny(Lower(name), PreferredCols)
  }

  /** `any` holds exactly when some term, lower-cased, occurs in `text`. */
  lemma {:induction false} MatchesAnyTerm(text: string, terms: seq<string>)
    ensures MatchesAny(text, terms) <==> exists k | 0 <= k < |terms| :: Contains(text, Lower(terms[k]))
  {
    if terms != [] {
      var rest := terms[1..];
      MatchesAnyTerm(text, rest);
      if k :| 0 <= k < |terms| && Contains(text, Lower(terms[k])) {
        if k > 0 {
          assert rest[k - 1] == terms[k];
        }
      }
      if MatchesAny(text, rest) {
        var k :| 0 <= k < |rest| && Contains(text, Lower(rest[k]));
        assert rest[k] == terms[k + 1];
      }
    }
  }

  /** `sum(1 for c in cols if p(c))`: the number of labels among `cols` that satisfy `p`. */
  function CountLabels(cols: seq<Column>, p: string -> bool): (n: nat)
    ensures n <= |cols|
  {
    if cols == [] then 0
    else CountLabels(cols[..|cols| - 1], p) + (if p(cols[|cols| - 1].name) then 1 else 0)
  }

  /** The positions of the labels among `cols` that satisfy `p`. */
  function LabelPositions(cols: seq<Column>, p: string -> bool): set<nat>
  {
    set i: nat | i < |cols| && p(cols[i].name)
  }

  /** The sum counts each label once: it is the number of positions whose label satisfies `p`. */
  lemma {:induction false} CountLabelsIsSize(cols: seq<Column>, p: string -> bool)
    ensures CountLabels(cols, p) == |LabelPositions(cols, p)|
  {
    if cols != [] {
      var n := |cols| - 1;
      var front := cols[..n];
      CountLabelsIsSize(front, p);
      var last: set<nat> := if p(cols[n].name) then {n} else {};
      assert forall i | 0 <= i < n :: front[i] == cols[i];
      assert LabelPositions(cols, p) == LabelPositions(front, p) + last;
    }
  }

  /** A table's relevance score; labels are scored as `pd.read_html` gave them, before cleaning. */
  function Score(t: Frame): (s: nat)
    ensures s <= |t.columns|
  {
    CountLabels(t.columns, HeaderMatches)
  }

  /**
   * The score counts columns, not vocabulary hits: it is the number of
   * columns whose label matches at least one term.
   */
  lemma ScoreCountsColumns(t: Frame)
    ensures Score(t) == |LabelPositions(t.columns, HeaderMatches)|
  {
    CountLabelsIsSize(t.columns, HeaderMatches);
  }

  /** Only tables with more than one column and at least one row compete. */
  predicate Eligible(t: Frame)
  {
    |t.columns| > 1 && t.rows > 0
  }

  predicate AnyEligible(tables: seq<Frame>, n: int)
  {
    exists j | 0 <= j < n && j < |tables| :: Eligible(tables[j])
  }

  /**
   * Among the first `n` tables, `k` is eligible, no eligible table scores
   * higher, and every eligible table before it scores strictly lower.
   */
  predicate IsBestAmong(tables: seq<Frame>, n: int, k: int)
  {
    && 0 <= k < n <= |tables|
    && Eligible(tables[k])
    && (forall j | 0 <= j < n && Eligible(tables[j]) :: Score(tables[j]) <= Score(tables[k]))
    && (forall j | 0 <= j < k && Eligible(tables[j]) :: Score(tables[j]) < Score(tables[k]))
  }

  predicate IsBest(tables: seq<Frame>, k: int)
  {
    IsBestAmong(tables, |tables|, k)
  }

  /** Whenever some table is eligible, a best one exists. */
  lemma {:induction false} BestExists(tables: seq<Frame>, n: nat)
    requires n <= |tables| && AnyEligible(tables, n)
    ensures exists k :: IsBestAmong(tables, n, k)
  {
    var m := n - 1;
    if !AnyEligible(tables, m) {
      assert IsBestAmong(tables, n, m);
    } else {
      BestExists(tables, m);
      var k :| IsBestAmong(tables, m, k);
      if Eligible(tables[m]) && Score(tables[m]) > Score(tables[k]) {
        assert IsBestAmong(tables, n, m);
      } else {
        assert IsBestAmong(tables, n, k);
      }
    }
  }

  /** At most one table is best: ties go to the earliest. */
  lemma BestUnique(tables: seq<Frame>, k1: int, k2: int)
    requires IsBest(tables, k1) && IsBest(tables, k2)
    ensures k1 == k2
  {
  }

  /** The index the heuristic settles on, if any table is eligible. */
  ghost function HeuristicChoice(tables: seq<Frame>): (r: Option<nat>)
    ensures r.None? <==> !AnyEligible(tables, |tables|)
    ensures r.Some? ==> IsBest(tables, r.value)
  {
    if AnyEligible(tables, |tables|) then
      BestExists(tables, |tables|);
      var k :| IsBestAmong(tables, |tables|, k);
      Some(k)
    else None
  }

  /**
   * The scoring loop: keep the first table that beats the best score so far
   * (starting from -1) among the eligible ones.
   */
  method ChooseBest(tables: seq<Frame>) returns (best: Option<nat>)
    ensures best.None? <==> !AnyEligible(tables, |tables|)
    ensures best.Some? ==> IsBest(tables, best.value)
  {
    best := None;
    var bestScore: int := -1;
    for i := 0 to |tables|
      invariant best.None? <==> !AnyEligible(tables, i)
      invariant best.None? ==> bestScore == -1
      invariant best.Some? ==> IsBestAmong(tables, i, best.value) && bestScore == Score(tables[best.value])
    {
      var score := Score(tables[i]);
      if score > bestScore && |tables[i].columns| > 1 && tables[i].rows > 0 {
        bestScore := score;
        best := Some(i);
      }
    }
  }

  // ---------------------------------------------------------------- the whole choice

  /** The table `parse_orders_table` hands to `_clean_df`, or the error it raises first. */
  ghost function ChosenTable(doc: Html): Result<Frame, ScrapeError>
  {
    match FastPath(doc, Selectors)
    case Hit(t) => Success(t)
    case Raised => Failure(TableParseFailed)
    case Miss =>
      if doc.readAll.OtherRaised? then Failure(PageParseFailed)
      else
        var tables := FallbackTables(doc);
        match HeuristicChoice(tables)
        case Some(k) => Success(tables[k])
        case None => if tables == [] then Failure(NoTablesFound) else Success(tables[0])
  }

  /** What `parse_orders_table` returns, or the error it raises. */
  ghost function ParseSpec(doc: Html): Result<Frame, ScrapeError>
  {
    match ChosenTable(doc)
    case Success(t) => CleanSpec(t)
    case Failure(e) => Failure(e)
  }

  /** `parse_orders_table` as the script runs it. */
  method ParseOrdersTable(doc: Html) returns (r: Result<Frame, ScrapeError>)
    ensures r == ParseSpec(doc)
  {
    for i := 0 to |Selectors|
      invariant FastPath(doc, Selectors) == FastPath(doc, Selectors[i..])
    {
      assert Selectors[i..][1..] == Selectors[i + 1..];
      match Find(doc, Selectors[i])
      case NoMatch =>
      case ParseRaised =>
        return Failure(TableParseFailed);
      case Parsed(ts) =>
        if |ts| > 0 {
          r := CleanFrame(ts[0]);
          return;
        }
    }
    if doc.readAll.OtherRaised? {
      return Failure(PageParseFailed);
    }
    var tables := FallbackTables(doc);
    var best := ChooseBest(tables);
    match best
    case Some(k) =>
      BestUnique(tables, k, HeuristicChoice(tables).value);
      r := CleanFrame(tables[k]);
    case None =>
      if |tables| == 0 {
        return Failure(NoTablesFound);
      }
      r := CleanFrame(tables[0]);
  }
}

/** What `parse_orders_table` promises about the table it picks. */
module TableChoiceProperties {
  import opened Wrappers
  import opened Strings
  import opened Frames
  import opened TableChoice

  /** No known selector ends the fast path. */
  predicate NoDecisiveSelector(doc: Html)
  {
    forall i | 0 <= i < |Selectors| :: !Decisive(Find(doc, Selectors[i]))
  }

  /**
   * Fast-path precedence: when the first decisive selector yields tables, the
   * first of them is chosen, and what `pd.read_html` makes of the whole page
   * (where a better-scoring table may sit) plays no part.
   */
  lemma FastPathWins(doc: Html, i: nat, whole: PageRead)
    requires FirstDecisiveAt(doc, Selectors, i) && Find(doc, Selectors[i]).Parsed?
    ensures ChosenTable(doc) == Success(Find(doc, Selectors[i]).tables[0])
    ensures ChosenTable(doc.(readAll := whole)) == ChosenTable(doc)
  {
    FastPathFirstDecisive(doc, Selectors);
    var doc' := doc.(readAll := whole);
    assert forall s :: Find(doc', s) == Find(doc, s);
    assert FirstDecisiveAt(doc', Selectors, i);
    FastPathFirstDecisive(doc', Selectors);
  }

  /** A parse error on the first decisive selector's table is not caught. */
  lemma FastPathErrorPropagates(doc: Html, i: nat)
    requires FirstDecisiveAt(doc, Selectors, i) && Find(doc, Selectors[i]).ParseRaised?
    ensures ChosenTable(doc) == Failure(TableParseFailed)
  {
    FastPathFirstDecisive(doc, Selectors);
  }

  /**
   * The heuristic winner: when the fast path misses and some table has more
   * than one column and a row, the chosen table is such a table, scores at
   * least as high as every other such table, and is the earliest with that
   * score. A score of 0 is enough to win.
   */
  lemma HeuristicWinner(doc: Html)
    requires NoDecisiveSelector(doc)
    requires AnyEligible(FallbackTables(doc), |FallbackTables(doc)|)
    ensures exists k :: IsBest(FallbackTables(doc), k) && ChosenTable(doc) == Success(FallbackTables(doc)[k])
    ensures forall k | IsBest(FallbackTables(doc), k) :: ChosenTable(doc) == Success(FallbackTables(doc)[k])
  {
    FastPathFirstDecisive(doc, Selectors);
    var tables := FallbackTables(doc);
    var k := HeuristicChoice(tables).value;
    forall k' | IsBest(tables, k') ensures ChosenTable(doc) == Success(tables[k']) {
      BestUnique(tables, k, k');
    }
  }

  /** When the fast path misses and no table is eligible, the first table is used anyway. */
  lemma FallbackToFirst(doc: Html)
    requires NoDecisiveSelector(doc)
    requires !AnyEligible(FallbackTables(doc), |FallbackTables(doc)|)
    requires FallbackTables(doc) != []
    ensures ChosenTable(doc) == Success(FallbackTables(doc)[0])
  {
    FastPathFirstDecisive(doc, Selectors);
  }

  /**
   * "No HTML tables found on Orders page." is raised exactly when the fast
   * path misses and the whole-page read yields no table, including when
   * `pd.read_html` raised `ValueError`.
   */
  lemma NoTablesFoundExactly(doc: Html)
    ensures ChosenTable(doc) == Failure(NoTablesFound) <==>
      NoDecisiveSelector(doc) && !doc.readAll.OtherRaised? && FallbackTables(doc) == []
    ensures doc.readAll.ValueErrorRaised? && NoDecisiveSelector(doc) ==> ChosenTable(doc) == Failure(NoTablesFound)
  {
    FastPathFirstDecisive(doc, Selectors);
  }

  /**
   * Only `ValueError` is caught around the whole-page read: when the fast path
   * misses, any other exception from `pd.read_html` ends the choice, and it
   * is the only way a fast-path miss can end in that error.
   */
  lemma FallbackErrorPropagates(doc: Html)
    ensures ChosenTable(doc) == Failure(PageParseFailed) <==> NoDecisiveSelector(doc) && doc.readAll.OtherRaised?
  {
    FastPathFirstDecisive(doc, Selectors);
  }

  /** The vocabulary as `pc.lower()` gives it. */
  const LoweredCols: seq<string> :=
    ["order", "order #", "order id", "po", "customer", "workstation", "status", "date", "due"]

  /** The lower-cased vocabulary without the two terms that extend "order". */
  const EssentialTerms: seq<string> := ["order", "po", "customer", "workstation", "status", "date", "due"]

  lemma LoweredVocabulary()
    ensures |LoweredCols| == |PreferredCols|
    ensures forall k | 0 <= k < |PreferredCols| :: Lower(PreferredCols[k]) == LoweredCols[k]
  {
    forall k | 0 <= k < |PreferredCols| ensures Lower(PreferredCols[k]) == LoweredCols[k] {
    }
  }

  /** The terms "Order #" and "Order ID" add nothing: "Order" already matches any label they match. */
  lemma VocabularyOverlap(name: string)
    ensures HeaderMatches(name) <==> exists t | t in EssentialTerms :: Contains(Lower(name), t)
  {
    if HeaderMatches(name) {
      EssentialTermFound(name);
    }
    if t :| t in EssentialTerms && Contains(Lower(name), t) {
      EssentialTermSuffices(name, t);
    }
  }

  lemma EssentialTermFound(name: string)
    requires HeaderMatches(name)
    ensures exists t | t in EssentialTerms :: Contains(Lower(name), t)
  {
    var l := Lower(name);
    LoweredVocabulary();
    MatchesAnyTerm(l, PreferredCols);
    var k :| 0 <= k < |PreferredCols| && Contains(l, Lower(PreferredCols[k]));
    if k == 1 {
      assert LoweredCols[1] == "order" + " #";
      ContainsPrefixOf(l, "order", " #");
    } else if k == 2 {
      assert LoweredCols[2] == "order" + " id";
      ContainsPrefixOf(l, "order", " id");
    }
    var j := if k <= 2 then 0 else k - 2;
    assert Contains(l, EssentialTerms[j]);
  }

  lemma EssentialTermSuffices(name: string, t: string)
    requires t in EssentialTerms && Contains(Lower(name), t)
    ensures HeaderMatches(name)
  {
    LoweredVocabulary();
    MatchesAnyTerm(Lower(name), PreferredCols);
    var k :| 0 <= k < |EssentialTerms| && EssentialTerms[k] == t;
    var k' := if k == 0 then 0 else k + 2;
    assert Lower(PreferredCols[k']) == t;
  }
}
