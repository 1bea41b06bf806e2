/** Properties that relate several operations: reading back what was saved, the
    version round trip, history growth, the first revision of a new page, and the
    store invariant every operation preserves. */
module PageProperties {

  import opened Wrappers
  import opened Text
  import opened PageModel
  import opened PagesController

  /** A stored document keeps the title invariant. */
  predicate DocConsistent(d: Doc) {
    d.title == TitleOf(d.body)
  }

  /** The store invariant: no record is stored under the empty id, and every current
      record and every revision carries the title derived from its body. */
  ghost predicate WellFormed(store: Store) {
    && "" !in store.pages
    && (forall k :: k in store.pages ==> DocConsistent(store.pages[k]))
    && (forall id, i :: 0 <= i < |Log(store, id)| ==> DocConsistent(Log(store, id)[i]))
  }

  /** Assigning a page its own data (`page.data = page.data`) changes nothing. */
  lemma SetDataRoundTrip(p: Page)
    requires TitleConsistent(p)
    ensures SetData(p, DataOf(p)) == Ok(p)
  {
  }

  /** Building a page from the document it saved gives the page back. */
  lemma FromSavedDoc(id: string, p: Page)
    requires TitleConsistent(p) && p.id == Some(id) && id != ""
    ensures FromDoc(id, ToDoc(p)) == p
  {
  }

  /** After a save, `Page.get(id)` returns exactly the saved page. */
  lemma ReadBackAfterSave(store: Store, p: Page, freshId: string)
    requires p.id.None? ==> Fresh(store, freshId)
    requires p.id.Some? ==> p.id.value != "" && p.id.value in store.pages
    requires TitleConsistent(p)
    ensures PageModel.Get(Save(store, p, freshId).0, SavedId(p, freshId), 0) == Save(store, p, freshId).1
  {
    var (saved, q) := Save(store, p, freshId);
    FromSavedDoc(SavedId(p, freshId), q);
  }

  /** The version round trip: after two updates with distinct clock readings, asking for
      the first reading's version returns the page the first update saved, not the
      current one (provided no earlier revision carried that reading). */
  lemma VersionRoundTrip(store: Store, id: string, first: PageData, t1: int, second: PageData, t2: int)
    requires t1 > 0 && t2 > 0 && t1 != t2
    requires forall d :: d in Log(store, id) ==> d.dtModify != t1
    requires Update(store, id, first, t1).result.Ok?
    ensures PagesController.Get(Update(Update(store, id, first, t1).store, id, second, t2).store, id, t1)
            == Update(store, id, first, t1).result
  {
    var u1 := Update(store, id, first, t1);
    var u2 := Update(u1.store, id, second, t2);
    var p1 := u1.result.value;
    SecondUpdateKeepsRevision(u1.store, id, second, t2);
    assert Log(u1.store, id) == Log(store, id) + [ToDoc(p1)];
    OnlyRevisionAt(Log(store, id), ToDoc(p1), t1);
    FromSavedDoc(id, p1);
    GetUniqueVersion(u2.store, id, t1, ToDoc(p1));
  }

  /** A second update leaves the revisions already logged in place, and appends one
      stamped with its own clock reading. */
  lemma SecondUpdateKeepsRevision(store: Store, id: string, data: PageData, now: int)
    requires now > 0
    ensures forall d :: d in Log(Update(store, id, data, now).store, id) ==> d in Log(store, id) || d.dtModify == now
    ensures forall d :: d in Log(store, id) ==> d in Log(Update(store, id, data, now).store, id)
  {
  }

  lemma OnlyRevisionAt(log: seq<Doc>, last: Doc, t: int)
    requires forall d :: d in log ==> d.dtModify != t
    requires last.dtModify == t
    ensures forall d :: d in log + [last] && d.dtModify == t ==> d == last
  {
  }

  /** When exactly one revision of page `id` carries `version`, `Pages.get(id, version)`
      returns the page built from it. */
  lemma GetUniqueVersion(store: Store, id: string, version: int, d: Doc)
    requires id != "" && Truthy(version)
    requires d in Log(store, id) && d.dtModify == version
    requires forall e :: e in Log(store, id) && e.dtModify == version ==> e == d
    ensures PagesController.Get(store, id, version) == Ok(FromDoc(id, d))
  {
  }

  /** An update adds exactly one entry to the page's history; when the clock has not run
      backwards, the newest entry carries the update's `dtModify`. */
  lemma UpdateAddsOneRevision(store: Store, id: string, data: PageData, now: int)
    requires now > 0
    requires Update(store, id, data, now).result.Ok?
    ensures |PagesController.GetPageHistory(Update(store, id, data, now).store, id)|
            == |PagesController.GetPageHistory(store, id)| + 1
    ensures (forall d :: d in Log(store, id) ==> d.dtModify <= now) ==>
              PagesController.GetPageHistory(Update(store, id, data, now).store, id)[0].dtModify == now
  {
    var u := Update(store, id, data, now);
    var h := PagesController.GetPageHistory(u.store, id);
    if forall d :: d in Log(store, id) ==> d.dtModify <= now {
      var newest := ToDoc(u.result.value);
      assert newest in Log(u.store, id);
      var j :| 0 <= j < |h| && h[j] == FromDoc(id, newest);
      var d0 :| d0 in Log(u.store, id) && h[0] == FromDoc(id, d0);
      assert d0 in Log(store, id) || d0 == newest;
      assert h[0].dtModify >= h[j].dtModify;
    }
  }

  /** A newly inserted page (without a client-supplied id) is readable under the assigned
      id, both as the current page and as the version stamped at insertion, and its
      history is exactly that one revision. */
  lemma InsertStartsHistory(store: Store, data: PageData, now: int, freshId: string)
    requires Fresh(store, freshId)
    requires now > 0
    requires BoundId(data.id).None?
    requires Insert(store, data, now, freshId).result.Ok?
    ensures PagesController.GetPageHistory(Insert(store, data, now, freshId).store, freshId)
            == [Insert(store, data, now, freshId).result.value]
    ensures PagesController.Get(Insert(store, data, now, freshId).store, freshId, 0)
            == Insert(store, data, now, freshId).result
    ensures PagesController.Get(Insert(store, data, now, freshId).store, freshId, now)
            == Insert(store, data, now, freshId).result
  {
    var ins := Insert(store, data, now, freshId);
    SoleRevisionReadable(ins.store, freshId, ins.result.value);
  }

  /** A page whose current record and only revision are both its own document reads back
      as itself, live, by its `dtModify` version, and as its whole history. */
  lemma SoleRevisionReadable(store: Store, id: string, p: Page)
    requires id != "" && p.id == Some(id) && TitleConsistent(p) && Truthy(p.dtModify)
    requires id in store.pages && store.pages[id] == ToDoc(p)
    requires Log(store, id) == [ToDoc(p)]
    ensures PagesController.GetPageHistory(store, id) == [p]
    ensures PagesController.Get(store, id, 0) == Ok(p)
    ensures PagesController.Get(store, id, p.dtModify) == Ok(p)
  {
    FromSavedDoc(id, p);
    SoleRevisionHistory(store, id, p);
    GetUniqueVersion(store, id, p.dtModify, ToDoc(p));
  }

  lemma SoleRevisionHistory(store: Store, id: string, p: Page)
    requires id != "" && p.id == Some(id) && TitleConsistent(p)
    requires |Log(store, id)| == 1 && Log(store, id)[0] == ToDoc(p)
    ensures PagesController.GetPageHistory(store, id) == [p]
  {
    var h := PagesController.GetPageHistory(store, id);
    SingletonHistory(Log(store, id), h, id, p);
  }

  lemma SingletonHistory(log: seq<Doc>, h: seq<Page>, id: string, p: Page)
    requires id != "" && p.id == Some(id) && TitleConsistent(p)
    requires |log| == 1 && log[0] == ToDoc(p) && |h| == 1
    requires forall i :: 0 <= i < |h| ==> exists d :: d in log && h[i] == FromDoc(id, d)
    ensures h == [p]
  {
    var first := h[0];
    assert exists d :: d in log && first == FromDoc(id, d);
    var d :| d in log && h[0] == FromDoc(id, d);
    FromSavedDoc(id, p);
  }

  /** A write that replaces at most the record of page `k` with a consistent page's
      document and appends that document to `k`'s log keeps the store invariant. */
  lemma WriteKeepsWellFormed(store: Store, written: Store, k: string, p: Page)
    requires WellFormed(store)
    requires k != "" && TitleConsistent(p)
    requires forall j :: j != k ==> (j in written.pages <==> j in store.pages)
    requires forall j :: j != k && j in store.pages ==> written.pages[j] == store.pages[j]
    requires k in written.pages ==> written.pages[k] == ToDoc(p)
    requires Log(written, k) == Log(store, k) + [ToDoc(p)]
    requires forall j :: j != k ==> Log(written, j) == Log(store, j)
    ensures WellFormed(written)
  {
    forall id, i | 0 <= i < |Log(written, id)|
      ensures DocConsistent(Log(written, id)[i])
    {
      if id == k && i < |Log(store, k)| {
        assert Log(written, k)[i] == Log(store, k)[i];
      }
    }
  }

  /** Inserting keeps the store invariant. */
  lemma InsertPreservesWellFormed(store: Store, data: PageData, now: int, freshId: string)
    requires Fresh(store, freshId)
    requires WellFormed(store)
    ensures WellFormed(Insert(store, data, now, freshId).store)
  {
    var ins := Insert(store, data, now, freshId);
    if ins.result.Ok? {
      var p := ins.result.value;
      WriteKeepsWellFormed(store, ins.store, p.id.value, p);
    }
  }

  /** Updating keeps the store invariant. */
  lemma UpdatePreservesWellFormed(store: Store, id: string, data: PageData, now: int)
    requires now > 0
    requires WellFormed(store)
    ensures WellFormed(Update(store, id, data, now).store)
  {
    var u := Update(store, id, data, now);
    if u.result.Ok? {
      WriteKeepsWellFormed(store, u.store, id, u.result.value);
    }
  }

  /** Only the first `<br>` is removed before the emptiness check, so a header made of two
      line breaks passes. */
  lemma DoubleBreakHeaderPasses()
    ensures HeaderFilled("<br><br>")
  {
    assert ReplaceFirst("<br><br>", "<br>", "") == "<br>" by {
      ReplaceAtStart("<br><br>", "<br>", "");
      assert "<br><br>"[4..] == "<br>";
    }
    assert Trim("<br>") != "" by {
      TrimEmptyIff("<br>");
      assert !IsJsWhitespace("<br>"[0]);
    }
  }

  /** A header that is a single line break, possibly padded with spaces, is rejected. */
  lemma LoneBreakHeaderFails()
    ensures !HeaderFilled("<br>")
    ensures !HeaderFilled(" <br> ")
  {
    assert ReplaceFirst("<br>", "<br>", "") == "" by {
      ReplaceAtStart("<br>", "<br>", "");
    }
    assert ReplaceFirst(" <br> ", "<br>", "") == "  " by {
      assert !OccursAt(" <br> ", "<br>", 0) by { assert " <br> "[0..4][0] == ' '; }
      assert OccursAt(" <br> ", "<br>", 1);
      assert " <br> "[..1] + "" + " <br> "[5..] == "  ";
    }
    assert Trim("  ") == "" by {
      TrimEmptyIff("  ");
    }
  }

  lemma ReplaceAtStart(s: string, pat: string, rep: string)
    requires OccursAt(s, pat, 0)
    ensures ReplaceFirst(s, pat, rep) == rep + s[|pat|..]
  {
    assert s[..0] == [];
  }
}
