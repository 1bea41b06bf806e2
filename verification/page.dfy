/** The Page entity: one page's current data, the rule that derives its title from its
    body, and its persistence as a current-state record plus a per-page revision log.

    The two document collections are values: `Store.pages` maps a page id to its
    current-state record, and `Store.logs` maps a collection name (`page:<id>`) to the
    revisions appended to it, oldest first. */
module PageModel {

  import opened Wrappers
  import Ordering

  /** One editor block: its `type` and the `data.text` it carries. */
  datatype Block = Block(kind: string, text: string)

  const HeaderType: string := "header"

  /** A body whose `blocks` field is an array, the only kind a Page can hold. */
  datatype Body = Body(blocks: seq<Block>)

  /** The `blocks` field of a body as a caller may send it: absent or falsy, some other
      truthy value, or an array. */
  datatype BlocksInput = NoBlocks | NotAList | List(items: seq<Block>)

  /** The `body` field of incoming page data: `undefined`, another falsy value such as
      `null`, or a truthy value whose `blocks` field is `blocks`. */
  datatype BodyInput = Missing | Falsy | Given(blocks: BlocksInput)

  /** Page data handed to the constructor or to the `data` setter. Timestamps are epoch
      milliseconds, 0 standing for absent (the setter's `||` treats both alike). A `title`
      field, if sent, is ignored by the setter and so is not represented. */
  datatype PageData = PageData(id: Option<string>, body: BodyInput, dtCreate: int, dtModify: int)

  /** A Page object. `id` is the bound `_id`, `None` while unbound. */
  datatype Page = Page(id: Option<string>, title: string, body: Option<Body>, dtCreate: int, dtModify: int)

  /** A stored document: a current-state record (its id is the key it is stored under) or
      one revision snapshot. */
  datatype Doc = Doc(title: string, body: Option<Body>, dtCreate: int, dtModify: int)

  datatype Store = Store(pages: map<string, Doc>, logs: map<string, seq<Doc>>)

  /** What an operation throws: an `Error` with a message, or a JavaScript TypeError
      raised by the runtime. */
  datatype Error = Thrown(message: string) | TypeError

  /** JavaScript truthiness of a timestamp or version (NaN is modelled as 0). */
  predicate Truthy(t: int) {
    t != 0
  }

  /** `blocks[i]` is the first block of type "header". */
  predicate IsFirstHeader(blocks: seq<Block>, i: int) {
    && 0 <= i < |blocks|
    && blocks[i].kind == HeaderType
    && forall k :: 0 <= k < i ==> blocks[k].kind != HeaderType
  }

  /** `blocks.find(block => block.type === 'header')`, then its text, or "" if none. */
  function HeaderText(blocks: seq<Block>): (r: string)
    ensures (forall i :: 0 <= i < |blocks| ==> blocks[i].kind != HeaderType) ==> r == ""
    ensures forall i :: IsFirstHeader(blocks, i) ==> r == blocks[i].text
  {
    if blocks == [] then ""
    else if blocks[0].kind == HeaderType then blocks[0].text
    else
      var r := HeaderText(blocks[1..]);
      assert forall i :: 1 <= i < |blocks| && IsFirstHeader(blocks, i) ==> IsFirstHeader(blocks[1..], i - 1);
      r
  }

  /** `extractTitleFromBody`: the text of the first header block, "" when there is no
      body or no header. */
  function TitleOf(body: Option<Body>): (r: string)
    ensures body.None? ==> r == ""
    ensures body.Some? ==>
              (forall i :: 0 <= i < |body.value.blocks| ==> body.value.blocks[i].kind != HeaderType) ==> r == ""
    ensures forall i :: body.Some? && IsFirstHeader(body.value.blocks, i) ==> r == body.value.blocks[i].text
  {
    match body
    case None => ""
    case Some(b) => HeaderText(b.blocks)
  }

  /** The title invariant: a page's title is the text derived from its body. */
  predicate TitleConsistent(p: Page) {
    p.title == TitleOf(p.body)
  }

  /** The id the constructor binds: only a truthy (non-empty) `_id`. */
  function BoundId(id: Option<string>): Option<string> {
    if id.Some? && id.value != "" then id else None
  }

  /** A freshly allocated Page object before its setter runs: every field undefined. */
  const Unset: Page := Page(None, "", None, 0, 0)

  /** The empty object `{}` as page data. */
  const NoData: PageData := PageData(None, Missing, 0, 0)

  /** `set data(pageData)`: a present body replaces the old one, an absent or falsy one
      keeps it; the title is recomputed from the resulting body; truthy timestamps
      replace the old ones. A truthy body without a `blocks` array makes the title
      extraction throw a TypeError. */
  function SetData(p: Page, data: PageData): (r: Result<Page, Error>)
    ensures r.Err? <==> data.body.Given? && !data.body.blocks.List?
    ensures r.Err? ==> r.error == TypeError
    ensures r.Ok? ==> TitleConsistent(r.value) && r.value.id == p.id
    ensures r.Ok? && !data.body.Given? ==> r.value.body == p.body
    ensures r.Ok? && data.body.Given? ==> r.value.body == Some(Body(data.body.blocks.items))
    ensures r.Ok? ==> r.value.dtCreate == (if Truthy(data.dtCreate) then data.dtCreate else p.dtCreate)
    ensures r.Ok? ==> r.value.dtModify == (if Truthy(data.dtModify) then data.dtModify else p.dtModify)
  {
    var body :- match data.body
      case Missing => Ok(p.body)
      case Falsy => Ok(p.body)
      case Given(List(items)) => Ok(Some(Body(items)))
      case Given(_) => Err(TypeError);
    Ok(Page(p.id, TitleOf(body),
            body,
            if Truthy(data.dtCreate) then data.dtCreate else p.dtCreate,
            if Truthy(data.dtModify) then data.dtModify else p.dtModify))
  }

  /** `get data()`: the page's fields as page data. */
  function DataOf(p: Page): PageData {
    PageData(p.id,
             match p.body
             case None => Missing
             case Some(b) => Given(List(b.blocks)),
             p.dtCreate, p.dtModify)
  }

  /** `new Page(data)`: `null` (or no argument) is read as `{}`; a truthy `_id` is bound;
      then the `data` setter runs. */
  function Construct(data: Option<PageData>): (r: Result<Page, Error>)
    ensures data.None? ==> r == Ok(Unset)
    ensures r.Err? <==> data.Some? && data.value.body.Given? && !data.value.body.blocks.List?
    ensures r.Err? ==> r.error == TypeError
    ensures r.Ok? ==> r.value.id == (if data.Some? then BoundId(data.value.id) else None)
    ensures r.Ok? ==> TitleConsistent(r.value)
    ensures r.Ok? && data.Some? ==>
              && r.value.body == (if data.value.body.Given? then Some(Body(data.value.body.blocks.items)) else None)
              && r.value.dtCreate == data.value.dtCreate
              && r.value.dtModify == data.value.dtModify
  {
    var d := if data.None? then NoData else data.value;
    SetData(Unset.(id := BoundId(d.id)), d)
  }

  /** `new Page(null)` behaves exactly like `new Page({})`: an id-less page with no body. */
  lemma NullLikeEmpty()
    ensures Construct(None) == Construct(Some(NoData))
    ensures Construct(None) == Ok(Page(None, "", None, 0, 0))
  {
  }

  /** The stored document as page data, tagged with `_id`. */
  function DocData(id: string, d: Doc): PageData {
    PageData(Some(id),
             match d.body
             case None => Missing
             case Some(b) => Given(List(b.blocks)),
             d.dtCreate, d.dtModify)
  }

  /** The Page built from a stored document tagged with `id` (see `ConstructFromDoc`). */
  function FromDoc(id: string, d: Doc): Page {
    Page(BoundId(Some(id)), TitleOf(d.body), d.body, d.dtCreate, d.dtModify)
  }

  /** The constructor never throws on a stored document: it binds `id` when it is
      non-empty, takes the body and timestamps as stored and rederives the title. */
  lemma ConstructFromDoc(id: string, d: Doc)
    ensures Construct(Some(DocData(id, d))) == Ok(FromDoc(id, d))
  {
  }

  /** The fields a save writes, both to the current-state record and to the revision. */
  function ToDoc(p: Page): Doc {
    Doc(p.title, p.body, p.dtCreate, p.dtModify)
  }

  /** `Page.dbName(id)`: the name of the revision collection of page `id`. */
  function DbName(id: string): string {
    "page:" + id
  }

  /** Distinct page ids name distinct revision collections. */
  lemma DbNameInjective(a: string, b: string)
    ensures DbName(a) == DbName(b) ==> a == b
  {
    assert DbName(a)[5..] == a;
    assert DbName(b)[5..] == b;
  }

  /** The revisions of page `id`, oldest first; a collection never written is empty. */
  function Log(store: Store, id: string): seq<Doc> {
    if DbName(id) in store.logs then store.logs[DbName(id)] else []
  }

  /** An id the store may assign to a new page: non-empty, and neither a current record
      nor a revision collection exists under it (ids are never reused). */
  predicate Fresh(store: Store, id: string) {
    id != "" && id !in store.pages && DbName(id) !in store.logs
  }

  /** The id a save leaves bound: the page's own, or the one the store assigns. */
  function SavedId(p: Page, freshId: string): string {
    if p.id.Some? then p.id.value else freshId
  }

  /** `save()`: an unbound page is inserted under the store-assigned `freshId`, which it
      then binds; a bound page replaces the record with its id (an update matching no
      record writes nothing). Either way one revision is appended to its log. */
  function Save(store: Store, p: Page, freshId: string): (r: (Store, Page))
    requires p.id.None? ==> Fresh(store, freshId)
    requires p.id.Some? ==> p.id.value != ""
    ensures r.1.id == Some(SavedId(p, freshId))
    ensures p.id.Some? ==> r.1.id == p.id
    ensures ToDoc(r.1) == ToDoc(p)
    ensures SavedId(p, freshId) in r.0.pages <==> SavedId(p, freshId) in store.pages || p.id.None?
    ensures SavedId(p, freshId) in r.0.pages ==> r.0.pages[SavedId(p, freshId)] == ToDoc(p)
    ensures forall k :: k != SavedId(p, freshId) ==> (k in r.0.pages <==> k in store.pages)
    ensures forall k :: k != SavedId(p, freshId) && k in store.pages ==> r.0.pages[k] == store.pages[k]
    ensures Log(r.0, SavedId(p, freshId)) == Log(store, SavedId(p, freshId)) + [ToDoc(p)]
    ensures forall k :: k != SavedId(p, freshId) ==> Log(r.0, k) == Log(store, k)
    ensures r.0.logs.Keys == store.logs.Keys + {DbName(SavedId(p, freshId))}
    ensures forall n :: n in store.logs && n != DbName(SavedId(p, freshId)) ==> r.0.logs[n] == store.logs[n]
  {
    var id := SavedId(p, freshId);
    var saved := p.(id := Some(id));
    var pages := if p.id.None? || id in store.pages then store.pages[id := ToDoc(saved)] else store.pages;
    var logs := store.logs[DbName(id) := Log(store, id) + [ToDoc(saved)]];
    forall k | k != id
      ensures Log(Store(pages, logs), k) == Log(store, k)
    {
      DbNameInjective(k, id);
    }
    (Store(pages, logs), saved)
  }

  /** A revision is selected by `version`: all of them when it is falsy, otherwise those
      whose `dtModify` equals it exactly. */
  predicate Selected(d: Doc, version: int) {
    !Truthy(version) || d.dtModify == version
  }

  /** The revisions of `docs` that `version` selects, in their original order. */
  function Matching(docs: seq<Doc>, version: int): (r: seq<Doc>)
    ensures |r| <= |docs|
    ensures forall d :: d in r <==> d in docs && Selected(d, version)
    ensures !Truthy(version) ==> r == docs
  {
    if docs == [] then []
    else
      var init := Matching(docs[..|docs| - 1], version);
      var last := docs[|docs| - 1];
      assert docs == docs[..|docs| - 1] + [last];
      init + (if Selected(last, version) then [last] else [])
  }

  /** `Matching` keeps each selected revision exactly as many times as it occurs, and
      drops every other one. */
  lemma {:induction false} MatchingCounts(docs: seq<Doc>, version: int)
    ensures forall d :: multiset(Matching(docs, version))[d] ==
                        (if Selected(d, version) then multiset(docs)[d] else 0)
  {
    if docs != [] {
      var init := docs[..|docs| - 1];
      var last := docs[|docs| - 1];
      MatchingCounts(init, version);
      assert docs == init + [last];
    }
  }

  /** The sort key of `{dtModify: -1}`: newest first. */
  function NewestFirst(p: Page): int {
    -p.dtModify
  }

  /** The sort key of `{dtCreate: 1}`: oldest first. */
  function OldestFirst(p: Page): int {
    p.dtCreate
  }

  /** `Page.getPageHistory(id, version)`: the revisions of page `id` that `version`
      selects, each tagged with `_id = id` and built into a Page, newest first. The store
      sorts the documents before they are built into pages; as the sort key is `dtModify`
      either way, sorting the built pages gives the same sequence. */
  function GetPageHistory(store: Store, id: string, version: int): (r: seq<Page>)
    ensures multiset(r) == multiset(PagesOf(id, Matching(Log(store, id), version)))
    ensures |r| == |Matching(Log(store, id), version)|
    ensures forall i, j :: 0 <= i < j < |r| ==> r[i].dtModify >= r[j].dtModify
    ensures Truthy(version) ==> forall i :: 0 <= i < |r| ==> r[i].dtModify == version
    ensures id != "" ==> forall i :: 0 <= i < |r| ==> r[i].id == Some(id)
    ensures forall i :: 0 <= i < |r| ==> TitleConsistent(r[i])
    ensures forall i :: 0 <= i < |r| ==>
              exists d :: d in Log(store, id) && Selected(d, version) && r[i] == FromDoc(id, d)
    ensures forall d :: d in Log(store, id) && Selected(d, version) ==> FromDoc(id, d) in r
  {
    var r := SortNewestFirst(PagesOf(id, Matching(Log(store, id), version)));
    HistoryMembers(store, id, version, r);
    r
  }

  /** Each document of `docs`, tagged with `id`, built into a Page. */
  function PagesOf(id: string, docs: seq<Doc>): (r: seq<Page>)
    ensures |r| == |docs|
    ensures forall i :: 0 <= i < |docs| ==> r[i] == FromDoc(id, docs[i])
  {
    seq(|docs|, i requires 0 <= i < |docs| => FromDoc(id, docs[i]))
  }

  /** The store's `sort({dtModify: -1})`: the same pages, newest first. */
  function SortNewestFirst(pages: seq<Page>): (r: seq<Page>)
    ensures multiset(r) == multiset(pages)
    ensures forall i, j :: 0 <= i < j < |r| ==> r[i].dtModify >= r[j].dtModify
  {
    var r := Ordering.SortBy(pages, NewestFirst);
    forall i, j | 0 <= i < j < |r|
      ensures r[i].dtModify >= r[j].dtModify
    {
      assert NewestFirst(r[i]) <= NewestFirst(r[j]);
    }
    r
  }

  lemma HistoryMembers(store: Store, id: string, version: int, r: seq<Page>)
    requires multiset(r) == multiset(PagesOf(id, Matching(Log(store, id), version)))
    ensures |r| == |Matching(Log(store, id), version)|
    ensures Truthy(version) ==> forall i :: 0 <= i < |r| ==> r[i].dtModify == version
    ensures id != "" ==> forall i :: 0 <= i < |r| ==> r[i].id == Some(id)
    ensures forall i :: 0 <= i < |r| ==> TitleConsistent(r[i])
    ensures forall i :: 0 <= i < |r| ==>
              exists d :: d in Log(store, id) && Selected(d, version) && r[i] == FromDoc(id, d)
    ensures forall d :: d in Log(store, id) && Selected(d, version) ==> FromDoc(id, d) in r
  {
    var matched := Matching(Log(store, id), version);
    var pages := PagesOf(id, matched);
    assert |r| == |multiset(r)| == |multiset(pages)| == |pages|;
    forall i | 0 <= i < |r|
      ensures exists d :: d in Log(store, id) && Selected(d, version) && r[i] == FromDoc(id, d)
    {
      assert r[i] in multiset(pages);
      var k :| 0 <= k < |pages| && pages[k] == r[i];
      assert matched[k] in matched;
    }
    forall d | d in Log(store, id) && Selected(d, version)
      ensures FromDoc(id, d) in r
    {
      var k :| 0 <= k < |matched| && matched[k] == d;
      assert pages[k] == FromDoc(id, d);
      assert FromDoc(id, d) in multiset(r);
    }
  }

  /** Rebuilding a page from its own data (`new Page(page)`) gives the same page, as long
      as it keeps the title invariant and binds only a non-empty id. */
  lemma RebuildIdentity(p: Page)
    requires TitleConsistent(p)
    requires p.id.Some? ==> p.id.value != ""
    ensures Construct(Some(DataOf(p))) == Ok(p)
  {
    var d := DataOf(p);
    assert BoundId(d.id) == p.id;
    assert d.body.Given? <==> p.body.Some?;
  }

  /** `Page.get(id, version)`: for a falsy `version`, the page built from the current
      record (or an id-less page if there is none); otherwise the page rebuilt from the
      first revision `getPageHistory(id, version)` lists (or an id-less page). */
  function Get(store: Store, id: string, version: int): (p: Page)
    ensures TitleConsistent(p)
    ensures !Truthy(version) && id in store.pages ==> p == FromDoc(id, store.pages[id])
    ensures !Truthy(version) && id !in store.pages ==> p.id.None?
    ensures Truthy(version) ==>
              (p.id.Some? <==> id != "" && exists d :: d in Log(store, id) && d.dtModify == version)
    ensures Truthy(version) && p.id.Some? ==>
              exists d :: d in Log(store, id) && d.dtModify == version && p == FromDoc(id, d)
  {
    if Truthy(version) then
      var history := GetPageHistory(store, id, version);
      if |history| == 0 then Unset
      else
        RebuildIdentity(history[0]);
        Construct(Some(DataOf(history[0]))).value
    else if id in store.pages then FromDoc(id, store.pages[id])
    else Unset
  }

  /** `Page.getAll()`: every current record built into a Page, oldest `dtCreate` first. */
  method GetAll(store: Store) returns (r: seq<Page>)
    ensures |r| == |store.pages|
    ensures Ordering.SortedBy(r, OldestFirst)
    ensures forall k :: k in store.pages ==> FromDoc(k, store.pages[k]) in r
    ensures forall p :: p in r ==> exists k :: k in store.pages && p == FromDoc(k, store.pages[k])
  {
    var rest := store.pages.Keys;
    var found: seq<Page> := [];
    while rest != {}
      invariant rest <= store.pages.Keys
      invariant |found| + |rest| == |store.pages|
      invariant forall k :: k in store.pages && k !in rest ==> FromDoc(k, store.pages[k]) in found
      invariant forall p :: p in found ==> exists k :: k in store.pages && k !in rest && p == FromDoc(k, store.pages[k])
      decreases |rest|
    {
      var k :| k in rest;
      found := found + [FromDoc(k, store.pages[k])];
      rest := rest - {k};
    }
    assert store.pages.Keys - rest == store.pages.Keys;
    r := Ordering.SortBy(found, OldestFirst);
    Ordering.SortByMembers(found, OldestFirst);
  }
}
