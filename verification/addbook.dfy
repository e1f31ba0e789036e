/**
  The add-book form: a draft object edited field by field, the genre
  normalisation, the rating widget, and the submit handler that fills in a
  placeholder image, posts the draft and then navigates home.

  The draft is a JavaScript object, so it is a map from property names to
  values, and copying the draft with one property set is the map update
  `draft[name := v]`.
 */
module AddBook {
  import opened Optional
  import opened Text
  import Requests
  import BookList

  /** The JavaScript values the form handles. */
  datatype Value =
    | Undefined
    | Null
    | Bool(b: bool)
    | Num(n: int)
    | Str(s: string)
    | Strs(items: seq<string>)

  /** The draft book: property name to value. */
  type Draft = map<string, Value>

  /** The form's two pieces of state: the rating shown and the draft. */
  datatype Form = Form(rateValue: Value, draft: Draft)

  /** A change event from a form input: its `name`, `value`, `checked` and `type`. */
  datatype FieldEvent = FieldEvent(name: string, value: string, checked: bool, inputType: string)

  /** What the submit handler does, in order. */
  datatype Effect = PreventDefault | Send(request: Requests.HttpRequest<Draft>) | Navigate(path: string)

  /** The effects of one submission and the hook state once the post has settled. */
  datatype Submission = Submission(effects: seq<Effect>, after: Requests.RequestState<Draft>)

  /** The base URL the form posts to. */
  const WriteBase: string := "http://localhost:3001"

  const Placeholder: string := "https://via.placeholder.com/150"

  /** The property names of the initial draft. */
  const DraftKeys: set<string> := {"author", "name", "genres", "completed", "start", "end", "stars", "img"}

  /** The initial draft: empty texts and genres, not completed, no dates, no stars. */
  function InitialDraft(): Draft {
    map[
      "author" := Str(""),
      "name" := Str(""),
      "genres" := Strs([]),
      "completed" := Bool(false),
      "start" := Null,
      "end" := Null,
      "stars" := Null,
      "img" := Str("")]
  }

  /** The form as mounted: the rating widget shows 3 while the draft holds no stars. */
  function InitialForm(): Form {
    Form(Num(3), InitialDraft())
  }

  /** Property access: a missing property reads as `undefined`. */
  function Get(d: Draft, key: string): Value {
    if key in d then d[key] else Undefined
  }

  /** JavaScript truthiness. */
  predicate Truthy(v: Value) {
    match v
    case Undefined => false
    case Null => false
    case Bool(b) => b
    case Num(n) => n != 0
    case Str(s) => s != ""
    case Strs(_) => true
  }

  /**
    Genre normalisation: a string value is split at every comma, any
    other value (the multi-select's array) passes through as it is.
   */
  function NormaliseGenres(v: Value): (r: Value)
    ensures v.Str? ==> r.Strs? && Join(r.items, ',') == v.s
    ensures v.Str? ==> forall k :: 0 <= k < |r.items| ==> ',' !in r.items[k]
    ensures v.Str? ==> |r.items| == Count(v.s, ',') + 1
    ensures !v.Str? ==> r == v
  {
    match v
    case Str(s) =>
      JoinSplit(s, ',');
      SplitPiecesFree(s, ',');
      SplitLength(s, ',');
      Strs(Split(s, ','))
    case _ => v
  }

  /** A comma-joined string of comma-free genres normalises back to those genres. */
  lemma NormaliseJoinedGenres(genres: seq<string>)
    requires |genres| >= 1
    requires forall k :: 0 <= k < |genres| ==> ',' !in genres[k]
    ensures NormaliseGenres(Str(Join(genres, ','))) == Strs(genres)
  {
    SplitJoin(genres, ',');
  }

  /** Worked case: `"Fiction,Drama"` becomes the two genres. */
  lemma NormaliseFictionDrama()
    ensures NormaliseGenres(Str("Fiction,Drama")) == Strs(["Fiction", "Drama"])
  {
    var genres := ["Fiction", "Drama"];
    assert Join(genres[1..], ',') == "Drama";
    assert Join(genres, ',') == "Fiction" + [','] + "Drama";
    assert "Fiction" + [','] + "Drama" == "Fiction,Drama";
    NormaliseJoinedGenres(genres);
  }

  /** Worked cases: an array passes through, and the empty string gives one empty genre. */
  lemma NormaliseArrayAndEmpty()
    ensures NormaliseGenres(Strs(["Fiction"])) == Strs(["Fiction"])
    ensures NormaliseGenres(Str("")) == Strs([""])
  {
  }

  /** `genreChangeHandler`: only `genres` changes, to the normalised value. */
  function GenreChange(f: Form, v: Value): (r: Form)
    ensures Get(r.draft, "genres") == NormaliseGenres(v)
    ensures forall k :: k != "genres" ==> Get(r.draft, k) == Get(f.draft, k)
    ensures r.draft.Keys == f.draft.Keys + {"genres"}
    ensures r.rateValue == f.rateValue
  {
    f.(draft := f.draft["genres" := NormaliseGenres(v)])
  }

  /** `rateChangeHandler`: the shown rating and the draft's `stars` both become `newValue`. */
  function RateChange(f: Form, newValue: Value): (r: Form)
    ensures r.rateValue == newValue && Get(r.draft, "stars") == newValue
    ensures forall k :: k != "stars" ==> Get(r.draft, k) == Get(f.draft, k)
    ensures r.draft.Keys == f.draft.Keys + {"stars"}
  {
    Form(newValue, f.draft["stars" := newValue])
  }

  /** Whether an input event stores its `checked` flag rather than its `value`. */
  predicate StoresChecked(e: FieldEvent) {
    e.inputType == "checkbox" && e.name == "completed"
  }

  /**
    `addBookHandler`: the property named by the event takes the event's
    `checked` flag (the `completed` checkbox) or its text `value` (every
    other input, other checkboxes included); nothing else changes.
   */
  function FieldChange(f: Form, e: FieldEvent): (r: Form)
    ensures StoresChecked(e) ==> Get(r.draft, e.name) == Bool(e.checked)
    ensures !StoresChecked(e) ==> Get(r.draft, e.name) == Str(e.value)
    ensures forall k :: k != e.name ==> Get(r.draft, k) == Get(f.draft, k)
    ensures r.draft.Keys == f.draft.Keys + {e.name}
    ensures r.rateValue == f.rateValue
  {
    if StoresChecked(e) then f.(draft := f.draft[e.name := Bool(e.checked)])
    else f.(draft := f.draft[e.name := Str(e.value)])
  }

  /** A checkbox under any other name stores its text value, not a boolean. */
  lemma OtherCheckboxStoresValue(f: Form, name: string, value: string, checked: bool)
    requires name != "completed"
    ensures Get(FieldChange(f, FieldEvent(name, value, checked, "checkbox")).draft, name) == Str(value)
  {
  }

  /** The edits a form sees. */
  datatype FormEvent = Field(e: FieldEvent) | Genres(value: Value) | Rate(newValue: Value)

  function FormStep(f: Form, ev: FormEvent): Form {
    match ev
    case Field(e) => FieldChange(f, e)
    case Genres(v) => GenreChange(f, v)
    case Rate(v) => RateChange(f, v)
  }

  function RunForm(f: Form, evs: seq<FormEvent>): Form
    decreases |evs|
  {
    if evs == [] then f else RunForm(FormStep(f, evs[0]), evs[1..])
  }

  /** An edit that touches one of the draft's own properties. */
  predicate NamesDraftKey(ev: FormEvent) {
    ev.Field? ==> ev.e.name in DraftKeys
  }

  /**
    Edits of the form's own inputs never add or drop a property: the draft
    keeps exactly the eight properties it starts with.
   */
  lemma {:induction false} DraftKeysStable(f: Form, evs: seq<FormEvent>)
    requires f.draft.Keys == DraftKeys
    requires forall i :: 0 <= i < |evs| ==> NamesDraftKey(evs[i])
    ensures RunForm(f, evs).draft.Keys == DraftKeys
    decreases |evs|
  {
    if evs != [] {
      assert NamesDraftKey(evs[0]);
      var g := FormStep(f, evs[0]);
      assert g.draft.Keys == DraftKeys;
      assert forall i :: 0 <= i < |evs[1..]| ==> NamesDraftKey(evs[1..][i]) by {
        forall i | 0 <= i < |evs[1..]| ensures NamesDraftKey(evs[1..][i]) {
          assert evs[1..][i] == evs[i + 1];
        }
      }
      DraftKeysStable(g, evs[1..]);
    }
  }

  /** The mounted form holds the eight draft properties. */
  lemma InitialFormShape()
    ensures InitialForm().draft.Keys == DraftKeys
    ensures InitialForm().rateValue == Num(3)
    ensures Get(InitialForm().draft, "stars") == Null
  {
  }

  /**
    The copy of the draft that gets posted: a falsy image becomes the
    placeholder, a truthy one is kept, and nothing else changes.
   */
  function WithDefaultImage(d: Draft): (p: Draft)
    ensures Truthy(Get(p, "img"))
    ensures Truthy(Get(d, "img")) ==> Get(p, "img") == Get(d, "img")
    ensures !Truthy(Get(d, "img")) ==> Get(p, "img") == Str(Placeholder)
    ensures forall k :: k != "img" ==> Get(p, k) == Get(d, k)
    ensures p.Keys == d.Keys + {"img"}
  {
    d["img" := if Truthy(Get(d, "img")) then Get(d, "img") else Str(Placeholder)]
  }

  /** For a text image: empty gives the placeholder, anything else is kept. */
  lemma DefaultImageForText(d: Draft, img: string)
    requires Get(d, "img") == Str(img)
    ensures img == "" ==> Get(WithDefaultImage(d), "img") == Str(Placeholder)
    ensures img != "" ==> Get(WithDefaultImage(d), "img") == Str(img)
  {
  }

  /** Substituting twice is substituting once. */
  lemma DefaultImageIdempotent(d: Draft)
    ensures WithDefaultImage(WithDefaultImage(d)) == WithDefaultImage(d)
  {
  }

  /** The alert banner above the form's title: present exactly while the alert is shown, with its type and message. */
  function Banner(a: Requests.Alert): (b: Option<(string, string)>)
    ensures b.Some? <==> a.show
    ensures b.Some? ==> b.value == (a.kind, a.message)
  {
    if a.show then Some((a.kind, a.message)) else None
  }

  /**
    After any sequence of hook events from mount in which every timer
    firing has a pending timer, the form shows a banner exactly when the
    last outcome has not been hidden since, and it is that outcome's banner.
   */
  lemma BannerFollowsLastOutcome(t: seq<Requests.Event<Draft>>)
    requires Requests.Feasible(Requests.Initial(), t)
    ensures var b := Banner(Requests.Run(Requests.Initial(), t).alert);
      var last := Requests.LastAlertEvent(t);
      && (b.Some? <==> last.Some? && last.value.Resolve?)
      && (b.Some? ==> b.value == (Requests.AlertFor(last.value.outcome).kind, Requests.AlertFor(last.value.outcome).message))
  {
    Requests.AlertFollowsLastOutcome(Requests.Initial(), t);
    Requests.LastAlertEventIsLastOutcome(t);
  }

  /**
    `postHandler`: prevent the default action, post the draft with the
    default image to `books`, and after the post settles navigate to `/`.
    The hook swallows failures, so the navigation follows every outcome.
   */
  function PostHandler(f: Form, req: Requests.RequestState<Draft>, outcome: Requests.Outcome<Draft>): (s: Submission)
    ensures |s.effects| == 3
    ensures s.effects[0] == PreventDefault
    ensures s.effects[1].Send? && s.effects[1].request.verb == Requests.Post
    ensures s.effects[1].request.url == "http://localhost:3001/books"
    ensures s.effects[1].request.payload == Some(WithDefaultImage(f.draft))
    ensures s.effects[2] == Navigate("/")
    ensures !s.after.loading
    ensures s.after.alert == Requests.AlertFor(outcome)
  {
    var x := Requests.MakeRequest(req, WriteBase, Requests.PostCall(BookList.BooksEndpoint, WithDefaultImage(f.draft)), outcome);
    Submission([PreventDefault, Send(x.request), Navigate("/")], x.after)
  }

  /** What the submit handler does is the same whether the post succeeds or fails. */
  lemma NavigatesWhateverOutcome(f: Form, req: Requests.RequestState<Draft>, o1: Requests.Outcome<Draft>, o2: Requests.Outcome<Draft>)
    ensures PostHandler(f, req, o1).effects == PostHandler(f, req, o2).effects
  {
  }

  /**
    Submitting an untouched form posts `stars: null` and the placeholder
    image, although the rating widget shows 3.
   */
  lemma UntouchedFormPostsNoStars(req: Requests.RequestState<Draft>, outcome: Requests.Outcome<Draft>)
    ensures var p := PostHandler(InitialForm(), req, outcome).effects[1].request.payload.value;
      && Get(p, "stars") == Null
      && Get(p, "img") == Str(Placeholder)
    ensures InitialForm().rateValue == Num(3)
  {
  }
}
