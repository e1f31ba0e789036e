/**
  The book list screen: the mount-time fetch, the case-insensitive name
  filter recomputed from the fetched books and the search term, and the
  rendered view (spinner or cards linking to each book's detail route).
 */
module BookList {
  import opened Optional
  import opened Text
  import Requests

  /** The largest integer a JavaScript number holds exactly, `Number.MAX_SAFE_INTEGER`. */
  const MaxSafeInteger: nat := 9007199254740991

  /** A numeric id the server can send exactly; far below 10^21, where number text turns exponential. */
  type SafeNat = n: nat | n <= MaxSafeInteger

  /** A book id as the server sends it: a non-negative safe integer or a string. */
  datatype BookId = NumId(n: SafeNat) | TextId(text: string)

  /** A calendar date, kept as an opaque value. */
  datatype Date = Date(token: string)

  /** A book record as held by the client. */
  datatype Book = Book(
    id: BookId,
    name: string,
    author: string,
    genres: seq<string>,
    completed: bool,
    start: Option<Date>,
    end: Option<Date>,
    stars: Option<int>,
    img: string,
    description: string)

  /** The base URL the list and detail screens read from. */
  const ReadBase: string := "http://localhost:3000"

  /** The endpoint of the collection. */
  const BooksEndpoint: string := "books"

  /** The book's name, lower-cased, contains the lower-cased term. */
  predicate Matches(term: string, b: Book) {
    Includes(Lower(b.name), Lower(term))
  }

  /** `xs` is an order-preserving subsequence of `ys`. */
  ghost predicate SubsequenceOf<T>(xs: seq<T>, ys: seq<T>)
    decreases |ys|
  {
    xs == [] || (ys != [] && ((xs[0] == ys[0] && SubsequenceOf(xs[1..], ys[1..])) || SubsequenceOf(xs, ys[1..])))
  }

  /** The books that match the term, as an array `filter` keeps them. */
  function Filter(books: seq<Book>, term: string): seq<Book>
    decreases |books|
  {
    if books == [] then []
    else
      var rest := Filter(books[1..], term);
      if Matches(term, books[0]) then [books[0]] + rest else rest
  }

  /** The filtered list holds exactly the matching books, each as often as in `books`. */
  lemma {:induction false} FilterSelects(books: seq<Book>, term: string)
    ensures forall b :: b in Filter(books, term) <==> b in books && Matches(term, b)
    ensures forall b :: multiset(Filter(books, term))[b] == (if Matches(term, b) then multiset(books)[b] else 0)
    decreases |books|
  {
    if books != [] {
      FilterSelects(books[1..], term);
      assert books == [books[0]] + books[1..];
    }
  }

  /** The filtered list keeps the order of `books`, so it is no longer. */
  lemma {:induction false} FilterIsSubsequence(books: seq<Book>, term: string)
    ensures SubsequenceOf(Filter(books, term), books)
    ensures |Filter(books, term)| <= |books|
    decreases |books|
  {
    if books != [] {
      FilterIsSubsequence(books[1..], term);
      var r := Filter(books, term);
      if Matches(term, books[0]) {
        assert r[0] == books[0] && r[1..] == Filter(books[1..], term);
      }
    }
  }

  /** An empty search term keeps every book in order. */
  lemma {:induction false} FilterEmptyTermKeepsAll(books: seq<Book>)
    ensures Filter(books, "") == books
    decreases |books|
  {
    if books != [] {
      IncludesEmpty(Lower(books[0].name));
      assert Lower("") == "";
      FilterEmptyTermKeepsAll(books[1..]);
    }
  }

  /** Filtering the filtered list again with the same term changes nothing. */
  lemma {:induction false} FilterIdempotent(books: seq<Book>, term: string)
    ensures Filter(Filter(books, term), term) == Filter(books, term)
    decreases |books|
  {
    if books != [] {
      FilterIdempotent(books[1..], term);
      if Matches(term, books[0]) {
        var r := Filter(books, term);
        assert r[0] == books[0] && r[1..] == Filter(books[1..], term);
      }
    }
  }

  /** One step of the filter: the first book, if it matches, then the filtered rest. */
  lemma FilterUnfold(books: seq<Book>, term: string)
    requires books != []
    ensures Filter(books, term) == (if Matches(term, books[0]) then [books[0]] else []) + Filter(books[1..], term)
  {
  }

  /** Filtering a concatenation filters each part. */
  lemma {:induction false} FilterAppend(xs: seq<Book>, ys: seq<Book>, term: string)
    ensures Filter(xs + ys, term) == Filter(xs, term) + Filter(ys, term)
    decreases |xs|
  {
    if xs == [] {
      assert xs + ys == ys;
    } else {
      var zs := xs + ys;
      var a, b := Filter(xs[1..], term), Filter(ys, term);
      assert zs[0] == xs[0] && zs[1..] == xs[1..] + ys;
      FilterAppend(xs[1..], ys, term);
      FilterUnfold(zs, term);
      FilterUnfold(xs, term);
      if Matches(term, xs[0]) {
        assert Filter(zs, term) == [xs[0]] + (a + b);
        assert [xs[0]] + (a + b) == ([xs[0]] + a) + b;
      } else {
        assert Filter(zs, term) == [] + (a + b);
        assert Filter(xs, term) == [] + a;
      }
    }
  }

  /** The search is case-insensitive: terms that fold alike select the same books. */
  lemma FilterIgnoresTermCase(books: seq<Book>, t1: string, t2: string)
    requires Lower(t1) == Lower(t2)
    ensures Filter(books, t1) == Filter(books, t2)
  {
    assert forall b :: Matches(t1, b) == Matches(t2, b);
  }

  /**
    The second effect: once books have arrived the filtered list is
    recomputed from them and the term; while `books` is null it is left as it was.
   */
  function SyncFilter(books: Option<seq<Book>>, term: string, current: seq<Book>): (r: seq<Book>)
    ensures books.None? ==> r == current
    ensures books.Some? ==> forall b :: b in r <==> b in books.value && Matches(term, b)
  {
    match books
    case None => current
    case Some(bs) => FilterSelects(bs, term); Filter(bs, term)
  }

  /** The first effect: a request for the collection, only when nothing is loaded yet. */
  function MountFetch(books: Option<seq<Book>>): (c: Option<Requests.Call<Book>>)
    ensures c.Some? <==> books.None?
    ensures c.Some? ==> c.value == Requests.GetCall(BooksEndpoint)
  {
    if books.None? then Some(Requests.GetCall(BooksEndpoint)) else None
  }

  /** The list screen's state: its request hook, the search term and the filtered list. */
  datatype Screen = Screen(req: Requests.RequestState<seq<Book>>, term: string, filtered: seq<Book>)

  /** Things that happen to the screen: hook events and edits of the search box. */
  datatype ScreenEvent = Hook(e: Requests.Event<seq<Book>>) | SetTerm(term: string)

  /** A freshly mounted screen. */
  function InitialScreen(): Screen {
    Screen(Requests.Initial(), "", [])
  }

  /**
    One event followed by the filter effect. The effect is run after every
    event; when its inputs did not change it recomputes the same list, so
    this agrees with React running it only on a change of `books` or the term.
   */
  function ScreenStep(sc: Screen, ev: ScreenEvent): (r: Screen)
    ensures ev.SetTerm? ==> r.req == sc.req && r.term == ev.term
    ensures ev.Hook? ==> r.req == Requests.Step(sc.req, ev.e) && r.term == sc.term
    ensures r.req.data.None? ==> r.filtered == sc.filtered
  {
    var next := match ev
      case Hook(e) => sc.(req := Requests.Step(sc.req, e))
      case SetTerm(t) => sc.(term := t);
    next.(filtered := SyncFilter(next.req.data, next.term, sc.filtered))
  }

  /** The screen after a sequence of events. */
  function RunScreen(sc: Screen, evs: seq<ScreenEvent>): Screen
    decreases |evs|
  {
    if evs == [] then sc else RunScreen(ScreenStep(sc, evs[0]), evs[1..])
  }

  /** The filtered list is `[]` until books arrive, and then exactly the filter of the books by the term. */
  ghost predicate Consistent(sc: Screen) {
    match sc.req.data
    case None => sc.filtered == []
    case Some(bs) => sc.filtered == Filter(bs, sc.term)
  }

  /** Every event keeps the screen consistent. */
  lemma ScreenStepConsistent(sc: Screen, ev: ScreenEvent)
    requires Consistent(sc)
    ensures Consistent(ScreenStep(sc, ev))
  {
  }

  /** From mount on, whatever happens, the filtered list is the filter of the fetched books, or `[]` before they arrive. */
  lemma {:induction false} ScreenAlwaysConsistent(sc: Screen, evs: seq<ScreenEvent>)
    requires Consistent(sc)
    ensures Consistent(RunScreen(sc, evs))
    decreases |evs|
  {
    if evs != [] {
      ScreenStepConsistent(sc, evs[0]);
      ScreenAlwaysConsistent(ScreenStep(sc, evs[0]), evs[1..]);
    }
  }

  /** A freshly mounted screen is consistent, and it always fetches `GET http://localhost:3000/books`. */
  lemma MountedScreenFetchesBooks()
    ensures Consistent(InitialScreen())
    ensures MountFetch(InitialScreen().req.data) == Some(Requests.GetCall(BooksEndpoint))
    ensures Requests.ToHttp<Book>(ReadBase, Requests.GetCall(BooksEndpoint))
      == Requests.HttpRequest(Requests.Get, "http://localhost:3000/books", None)
  {
    assert ReadBase + "/" + BooksEndpoint == "http://localhost:3000/books";
  }

  /** The text an id becomes inside a template literal. */
  function IdText(id: BookId): string {
    match id
    case NumId(n) => Decimal(n)
    case TextId(t) => t
  }

  const DetailPrefix: string := "/book/"

  /** The "Learn More" link of a card: the detail route of the book's id. */
  function LinkTarget(b: Book): (path: string)
    ensures DetailPrefix <= path
    ensures path[|DetailPrefix|..] == IdText(b.id)
  {
    DetailPrefix + IdText(b.id)
  }

  /** The path of a link target: everything before the first `?` (query) or `#` (fragment). */
  function PathName(url: string): (p: string)
    ensures p <= url
    ensures '?' !in p && '#' !in p
    ensures |p| < |url| ==> url[|p|] == '?' || url[|p|] == '#'
    decreases |url|
  {
    if url == [] || url[0] == '?' || url[0] == '#' then [] else [url[0]] + PathName(url[1..])
  }

  /** A path with no trailing slashes, which route matching ignores. */
  function TrimSlashes(p: string): (r: string)
    ensures r <= p
    ensures r == [] || r[|r| - 1] != '/'
    ensures forall k :: |r| <= k < |p| ==> p[k] == '/'
    decreases |p|
  {
    if p != [] && p[|p| - 1] == '/' then TrimSlashes(p[..|p| - 1]) else p
  }

  /** A string that fills one path segment on its own: non-empty, with no `/`, `?` or `#`. */
  predicate IsSegment(t: string) {
    t != [] && '/' !in t && '?' !in t && '#' !in t
  }

  /**
    The `:id` parameter of a `/book/:id` route, if the link target is one:
    the single non-empty segment after `/book/` in the path, with the query,
    the fragment and trailing slashes set aside.
   */
  function RouteId(url: string): (r: Option<string>)
    ensures r.Some? ==> IsSegment(r.value) && DetailPrefix + r.value <= url
  {
    var p := TrimSlashes(PathName(url));
    if DetailPrefix <= p && |p| > |DetailPrefix| && '/' !in p[|DetailPrefix|..] then
      assert p == DetailPrefix + p[|DetailPrefix|..];
      Some(p[|DetailPrefix|..])
    else None
  }

  /** A link target with no query, fragment or trailing slash is its own path. */
  lemma PlainPath(url: string)
    requires '?' !in url && '#' !in url
    requires url == [] || url[|url| - 1] != '/'
    ensures TrimSlashes(PathName(url)) == url
  {
  }

  /** Following a card's link hands the detail route the book's id, whenever the id fills one segment. */
  lemma RouteIdOfLink(b: Book)
    requires IsSegment(IdText(b.id))
    ensures RouteId(LinkTarget(b)) == Some(IdText(b.id))
  {
    var link := LinkTarget(b);
    assert forall k :: 0 <= k < |link| ==> link[k] == (DetailPrefix + IdText(b.id))[k];
    assert '?' !in link && '#' !in link;
    PlainPath(link);
  }

  /** Every numeric id fills one segment, so its link always routes back to it. */
  lemma NumericLinksRouteBack(b: Book)
    requires b.id.NumId?
    ensures RouteId(LinkTarget(b)) == Some(Decimal(b.id.n))
  {
    var d := Decimal(b.id.n);
    assert forall k :: 0 <= k < |d| ==> IsDigit(d[k]);
    assert '/' !in d && '?' !in d && '#' !in d;
    RouteIdOfLink(b);
  }

  /** A text id holding `?` loses everything from the `?` on; one holding `/` matches no detail route. */
  lemma TextIdsThatDoNotRouteBack(b: Book, c: Book)
    requires b.id == TextId("a?b") && c.id == TextId("a/b")
    ensures RouteId(LinkTarget(b)) == Some("a")
    ensures RouteId(LinkTarget(c)) == None
  {
    var lb := LinkTarget(b);
    assert lb == "/book/a?b";
    assert PathName(lb[7..]) == "";
    assert PathName(lb) == "/book/a";
    var lc := LinkTarget(c);
    assert lc == "/book/a/b";
    PlainPath(lc);
    assert lc[|DetailPrefix|..] == "a/b";
  }

  /** Two books with numeric ids share a link exactly when they share the id. */
  lemma LinkTargetsDistinguishNumericIds(a: Book, b: Book)
    requires a.id.NumId? && b.id.NumId?
    ensures LinkTarget(a) == LinkTarget(b) <==> a.id == b.id
  {
    DecimalInjective(a.id.n, b.id.n);
    if LinkTarget(a) == LinkTarget(b) {
      assert LinkTarget(a)[|DetailPrefix|..] == LinkTarget(b)[|DetailPrefix|..];
    }
  }

  /** One rendered card. */
  datatype Card = Card(title: string, author: string, genres: seq<string>, image: string, stars: Option<int>, link: string)

  /** What the screen shows: the spinner, an alert banner (its type and message), and the card list when not loading. */
  datatype View = View(spinner: bool, banner: Option<(string, string)>, cards: Option<seq<Card>>)

  function CardOf(b: Book): Card {
    Card(b.name, b.author, b.genres, b.img, b.stars, LinkTarget(b))
  }

  /**
    The rendered screen: a spinner while loading, otherwise one card per
    filtered book, in order. The list screen takes only the data, the
    loading flag and the fetch from its hook, so it never shows an alert.
   */
  function Render(isLoading: bool, filtered: seq<Book>): (v: View)
    ensures v.spinner <==> isLoading
    ensures v.banner.None?
    ensures v.cards.Some? <==> !isLoading
    ensures v.cards.Some? ==> |v.cards.value| == |filtered|
    ensures v.cards.Some? ==> forall i :: 0 <= i < |filtered| ==>
      v.cards.value[i].title == filtered[i].name && v.cards.value[i].link == LinkTarget(filtered[i])
  {
    if isLoading then View(true, None, None)
    else View(false, None, Some(seq(|filtered|, i requires 0 <= i < |filtered| => CardOf(filtered[i]))))
  }

  /**
    A failed first fetch leaves the screen with no cards and no banner:
    the hook holds a shown error alert that the list screen does not render.
   */
  lemma FailedFetchShowsNoCards(message: string)
    ensures var sc := RunScreen(InitialScreen(), [Hook(Requests.Start), Hook(Requests.Resolve(Requests.Failure(message)))]);
      && Render(sc.req.loading, sc.filtered) == View(false, None, Some([]))
      && sc.req.alert == Requests.Alert(true, Requests.ErrorPrefix + message, Requests.ErrorKind)
  {
    var evs := [Hook(Requests.Start), Hook(Requests.Resolve(Requests.Failure(message)))];
    var s1 := ScreenStep(InitialScreen(), evs[0]);
    var s2 := ScreenStep(s1, evs[1]);
    assert evs[1..][0] == evs[1] && evs[1..][1..] == [];
    assert RunScreen(InitialScreen(), evs) == RunScreen(s1, evs[1..]);
    assert RunScreen(s1, evs[1..]) == RunScreen(s2, []);
    assert s2.req.data.None? && s2.filtered == [];
  }

  /**
    Whatever has happened since mount, a screen that is not loading shows
    one card per book of the filter of the fetched books by the current
    term, in order, each titled with a name that contains the term
    case-insensitively and linking to that book's detail route; before any
    books arrive it shows no cards.
   */
  lemma {:induction false} RenderShowsFilteredBooks(evs: seq<ScreenEvent>)
    ensures var sc := RunScreen(InitialScreen(), evs);
      var v := Render(sc.req.loading, sc.filtered);
      && (!sc.req.loading && sc.req.data.None? ==> v.cards == Some([]))
      && (!sc.req.loading && sc.req.data.Some? ==>
            var shown := Filter(sc.req.data.value, sc.term);
            && |v.cards.value| == |shown|
            && forall i :: 0 <= i < |shown| ==>
                 && v.cards.value[i].title == shown[i].name
                 && v.cards.value[i].link == LinkTarget(shown[i])
                 && shown[i] in sc.req.data.value
                 && Includes(Lower(v.cards.value[i].title), Lower(sc.term)))
  {
    MountedScreenFetchesBooks();
    ScreenAlwaysConsistent(InitialScreen(), evs);
    var sc := RunScreen(InitialScreen(), evs);
    if !sc.req.loading && sc.req.data.Some? {
      var shown := Filter(sc.req.data.value, sc.term);
      assert sc.filtered == shown;
      var cards := Render(false, shown).cards.value;
      FilterSelects(sc.req.data.value, sc.term);
      forall i | 0 <= i < |shown|
        ensures shown[i] in sc.req.data.value && Includes(Lower(cards[i].title), Lower(sc.term))
      {
        assert shown[i] in shown;
        assert Matches(sc.term, shown[i]);
      }
    }
  }

  /** Worked case: fetching a single book Dune with id 1 and five stars shows one card titled Dune with five stars linking to `/book/1`. */
  lemma DuneListsOneCard(dune: Book)
    requires dune.id == NumId(1) && dune.name == "Dune" && dune.stars == Some(5)
    ensures var sc := RunScreen(InitialScreen(), [Hook(Requests.Start), Hook(Requests.Resolve(Requests.Success([dune])))]);
      && Render(sc.req.loading, sc.filtered) == View(false, None, Some([CardOf(dune)]))
      && CardOf(dune).title == "Dune" && CardOf(dune).stars == Some(5) && CardOf(dune).link == "/book/1"
  {
    var evs := [Hook(Requests.Start), Hook(Requests.Resolve(Requests.Success([dune])))];
    var s1 := ScreenStep(InitialScreen(), evs[0]);
    var s2 := ScreenStep(s1, evs[1]);
    assert evs[1..][0] == evs[1] && evs[1..][1..] == [];
    assert RunScreen(InitialScreen(), evs) == RunScreen(s1, evs[1..]);
    assert RunScreen(s1, evs[1..]) == RunScreen(s2, []);
    FilterEmptyTermKeepsAll([dune]);
    assert s2.filtered == [dune];
    assert Render(false, [dune]).cards.value == [CardOf(dune)];
    assert Decimal(1) == "1";
  }

  /** Worked case: searching for `DU` keeps the book Dune, searching for `x` drops it. */
  lemma DuneSearch(dune: Book)
    requires dune.name == "Dune"
    ensures Filter([dune], "DU") == [dune]
    ensures Filter([dune], "x") == []
  {
    assert Lower("Dune") == "dune";
    assert Lower("DU") == "du";
    assert OccursAt("du", "dune", 0);
    assert Lower("x") == "x";
    assert !Includes("dune", "x") by {
      forall i: nat | i <= |"dune"| ensures !OccursAt("x", "dune", i) {
        if i < 4 {
          assert "dune"[i] != 'x';
        }
      }
    }
  }
}
