/** The Pages controller: the operations callers use. It validates new pages, stamps
    timestamps from the clock reading `now`, and reports an unknown id as "not found"
    before anything is written. Every operation returns the store it leaves behind
    together with its result, so "no write happened" reads as "the store is unchanged". */
module PagesController {

  import opened Wrappers
  import opened Text
  import opened PageModel

  /** `Pages.REQUIRED_FIELDS`. */
  const RequiredFields: seq<string> := ["body"]

  const MissingFieldsMessage: string := "Some of required fields is missed"
  const InvalidBodyMessage: string := "Page body is invalid"
  const HeaderFirstMessage: string := "First page Block must be a Header"
  const EmptyHeaderMessage: string := "Please, fill page Header"
  const NotFoundMessage: string := "Page with given id does not exist"

  /** The store an operation leaves behind, and what it returns or throws. */
  datatype Outcome<T> = Outcome(store: Store, result: Result<T, Error>)

  /** The verdict of `Pages.validate`: it passes, or throws an error with `message`. */
  datatype Verdict = Pass | Fail(message: string)

  /** `typeof data[field] !== 'undefined'` for a required field; `body` is the only one. */
  predicate IsDefined(data: PageData, field: string)
    requires field in RequiredFields
  {
    !data.body.Missing?
  }

  predicate AllRequiredPresent(data: PageData) {
    forall i :: 0 <= i < |RequiredFields| ==> IsDefined(data, RequiredFields[i])
  }

  /** `data.body && data.body.blocks && Array.isArray(data.body.blocks) && length > 0`. */
  predicate HasBlocks(data: PageData) {
    data.body.Given? && data.body.blocks.List? && |data.body.blocks.items| > 0
  }

  /** The header check: the text with its first `<br>` removed, then trimmed, is non-empty. */
  predicate HeaderFilled(text: string) {
    Trim(ReplaceFirst(text, "<br>", "")) != ""
  }

  /** `Pages.validate(data)`: the four checks in order, each failing with its own message. */
  function Validate(data: PageData): (r: Verdict)
    ensures r == Fail(MissingFieldsMessage) <==> data.body.Missing?
    ensures r == Fail(InvalidBodyMessage) <==>
              && !data.body.Missing?
              && !(data.body.Given? && data.body.blocks.List? && data.body.blocks.items != [])
    ensures r == Fail(HeaderFirstMessage) <==>
              && data.body.Given? && data.body.blocks.List? && data.body.blocks.items != []
              && data.body.blocks.items[0].kind != HeaderType
    ensures r == Fail(EmptyHeaderMessage) <==>
              && data.body.Given? && data.body.blocks.List? && data.body.blocks.items != []
              && data.body.blocks.items[0].kind == HeaderType
              && AllWhitespace(ReplaceFirst(data.body.blocks.items[0].text, "<br>", ""))
    ensures r.Pass? <==>
              && data.body.Given? && data.body.blocks.List? && data.body.blocks.items != []
              && data.body.blocks.items[0].kind == HeaderType
              && !AllWhitespace(ReplaceFirst(data.body.blocks.items[0].text, "<br>", ""))
  {
    assert IsDefined(data, RequiredFields[0]) <==> !data.body.Missing?;
    if !AllRequiredPresent(data) then Fail(MissingFieldsMessage)
    else if !HasBlocks(data) then Fail(InvalidBodyMessage)
    else if data.body.blocks.items[0].kind != HeaderType then Fail(HeaderFirstMessage)
    else
      TrimEmptyIff(ReplaceFirst(data.body.blocks.items[0].text, "<br>", ""));
      if !HeaderFilled(data.body.blocks.items[0].text) then Fail(EmptyHeaderMessage)
      else Pass
  }

  /** `Pages.get(id, version)`: the page `Page.get` resolves, or "not found" when it has
      no id, whether it came from the current record or from the history. */
  function Get(store: Store, id: string, version: int): (r: Result<Page, Error>)
    ensures r.Err? ==> r.error == Thrown(NotFoundMessage)
    ensures !Truthy(version) ==> (r.Err? <==> id == "" || id !in store.pages)
    ensures Truthy(version) ==>
              (r.Err? <==> id == "" || forall d :: d in Log(store, id) ==> d.dtModify != version)
    ensures r.Ok? ==> r.value.id == Some(id) && TitleConsistent(r.value)
    ensures r.Ok? && !Truthy(version) ==> r.value == FromDoc(id, store.pages[id])
    ensures r.Ok? && Truthy(version) ==>
              exists d :: d in Log(store, id) && d.dtModify == version && r.value == FromDoc(id, d)
  {
    var page := PageModel.Get(store, id, version);
    if page.id.None? then Err(Thrown(NotFoundMessage)) else Ok(page)
  }

  /** `Pages.getAll()`: every current page, oldest first. */
  method GetAll(store: Store) returns (r: seq<Page>)
    ensures |r| == |store.pages|
    ensures forall i, j :: 0 <= i < j < |r| ==> r[i].dtCreate <= r[j].dtCreate
    ensures forall k :: k in store.pages ==> FromDoc(k, store.pages[k]) in r
    ensures forall p :: p in r ==> exists k :: k in store.pages && p == FromDoc(k, store.pages[k])
  {
    r := PageModel.GetAll(store);
    assert forall i, j :: 0 <= i < j < |r| ==> OldestFirst(r[i]) <= OldestFirst(r[j]);
  }

  /** `Pages.getPageHistory(id)`: the whole history of page `id`, newest first. It never
      reports "not found": an unknown page simply has no revisions. */
  function GetPageHistory(store: Store, id: string): (r: seq<Page>)
    ensures multiset(r) == multiset(PagesOf(id, Log(store, id)))
    ensures |r| == |Log(store, id)|
    ensures forall i, j :: 0 <= i < j < |r| ==> r[i].dtModify >= r[j].dtModify
    ensures forall d :: d in Log(store, id) ==> FromDoc(id, d) in r
    ensures forall i :: 0 <= i < |r| ==> exists d :: d in Log(store, id) && r[i] == FromDoc(id, d)
  {
    PageModel.GetPageHistory(store, id, 0)
  }

  /** `Pages.insert(data)`: validation first (a failure writes nothing); then both
      timestamps become `now` and the page is constructed and saved. A payload carrying
      a truthy `_id` is saved under that id instead of the store-assigned `freshId`. */
  function Insert(store: Store, data: PageData, now: int, freshId: string): (r: Outcome<Page>)
    requires Fresh(store, freshId)
    ensures r.result.Err? ==> r.store == store && r.result.error.Thrown?
    ensures r.result.Ok? ==>
              && HasBlocks(data) && data.body.blocks.items[0].kind == HeaderType
              && r.result.value.dtCreate == now && r.result.value.dtModify == now
              && r.result.value.title == data.body.blocks.items[0].text
              && r.result.value.body == Some(Body(data.body.blocks.items))
              && TitleConsistent(r.result.value)
    ensures r.result.Ok? && BoundId(data.id).None? ==>
              && r.result.value.id == Some(freshId)
              && freshId in r.store.pages && r.store.pages[freshId] == ToDoc(r.result.value)
              && Log(r.store, freshId) == [ToDoc(r.result.value)]
    ensures r.result.Ok? && BoundId(data.id).Some? ==>
              && r.result.value.id == BoundId(data.id)
              && (data.id.value in r.store.pages <==> data.id.value in store.pages)
              && Log(r.store, data.id.value) == Log(store, data.id.value) + [ToDoc(r.result.value)]
    ensures r.result.Ok? ==>
              && r.store.logs.Keys == store.logs.Keys + {DbName(r.result.value.id.value)}
              && forall n :: n in store.logs && n != DbName(r.result.value.id.value) ==>
                   r.store.logs[n] == store.logs[n]
    ensures r.result.Ok? ==>
              && r.result.value.id.Some? && r.result.value.id.value != ""
              && (r.result.value.id.value in r.store.pages ==>
                    r.store.pages[r.result.value.id.value] == ToDoc(r.result.value))
    ensures r.result.Ok? ==> forall k :: Some(k) != r.result.value.id ==>
              && Log(r.store, k) == Log(store, k)
              && (k in r.store.pages <==> k in store.pages)
              && (k in store.pages ==> r.store.pages[k] == store.pages[k])
  {
    match Validate(data)
    case Fail(message) => Outcome(store, Err(Thrown(message)))
    case Pass =>
      var stamped := data.(dtCreate := now, dtModify := now);
      match Construct(Some(stamped))
      case Err(e) => Outcome(store, Err(e))
      case Ok(page) =>
        assert IsFirstHeader(data.body.blocks.items, 0);
        var (saved, p) := Save(store, page, freshId);
        Outcome(saved, Ok(p))
  }

  /** `Pages.insert` runs the validation before anything else: it fails exactly when
      `Pages.validate` does, with that message, and then writes nothing. */
  lemma InsertValidatesFirst(store: Store, data: PageData, now: int, freshId: string)
    requires Fresh(store, freshId)
    ensures Insert(store, data, now, freshId).result.Err? <==> Validate(data).Fail?
    ensures Validate(data).Fail? ==>
              Insert(store, data, now, freshId) == Outcome(store, Err(Thrown(Validate(data).message)))
  {
  }

  /** `Pages.update(id, data)`: "not found" for an unknown id before any write; otherwise
      `dtModify` becomes `now`, the data is assigned to the loaded page and it is saved.
      A body without a `blocks` array makes the assignment throw, also before any write. */
  function Update(store: Store, id: string, data: PageData, now: int): (r: Outcome<Page>)
    requires now > 0
    ensures r.result.Err? ==> r.store == store
    ensures r.result == Err(Thrown(NotFoundMessage)) <==> id == "" || id !in store.pages
    ensures r.result.Err? <==>
              id == "" || id !in store.pages || (data.body.Given? && !data.body.blocks.List?)
    ensures r.result.Ok? ==>
              && r.result.value.id == Some(id)
              && r.result.value.dtModify == now
              && r.result.value.dtCreate ==
                   (if Truthy(data.dtCreate) then data.dtCreate else store.pages[id].dtCreate)
              && (!data.body.Given? ==> r.result.value.body == store.pages[id].body)
              && (data.body.Given? ==> r.result.value.body == Some(Body(data.body.blocks.items)))
              && TitleConsistent(r.result.value)
    ensures r.result.Ok? ==>
              && r.store.pages == store.pages[id := ToDoc(r.result.value)]
              && Log(r.store, id) == Log(store, id) + [ToDoc(r.result.value)]
              && (forall k :: k != id ==> Log(r.store, k) == Log(store, k))
              && r.store.logs.Keys == store.logs.Keys + {DbName(id)}
              && (forall n :: n in store.logs && n != DbName(id) ==> r.store.logs[n] == store.logs[n])
  {
    var page := PageModel.Get(store, id, 0);
    if page.id.None? then Outcome(store, Err(Thrown(NotFoundMessage)))
    else
      match SetData(page, data.(dtModify := now))
      case Err(e) => Outcome(store, Err(e))
      case Ok(changed) =>
        var (saved, p) := Save(store, changed, id);
        Outcome(saved, Ok(p))
  }

  /** `Pages.remove(id)`: "not found" for an unknown id. For a known id it calls
      `page.destroy()`, which the Page model does not define, so the call throws a
      TypeError. Neither path writes anything. */
  function Remove(store: Store, id: string): (r: Outcome<Page>)
    ensures r.store == store
    ensures r.result.Err?
    ensures r.result.error == Thrown(NotFoundMessage) <==> id == "" || id !in store.pages
    ensures id != "" && id in store.pages ==> r.result.error == TypeError
  {
    var page := PageModel.Get(store, id, 0);
    if page.id.None? then Outcome(store, Err(Thrown(NotFoundMessage)))
    else Outcome(store, Err(TypeError))
  }
}
