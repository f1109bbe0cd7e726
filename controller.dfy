/**
 * The view controller of App.tsx: the screen shown, the list of proposals in
 * memory, the proposal being worked on and the transient notification, with
 * the handlers that change them.
 */
module Controller {
  import opened Types
  import opened Storage
  import opened Numbering
  import opened Items

  const DefaultDelivery: string := "Até 3 dias úteis"
  const DefaultPayment: string := "Boleto para 10 DDL"
  const ClientRequiredMessage: string := "O nome do cliente é obrigatório!"
  const SavedMessage: string := "Orçamento salvo com sucesso!"
  const DeletedMessage: string := "Orçamento removido."
  const OptimizedMessage: string := "Descrição otimizada pela IA!"

  /** The blank proposal createNewProposal builds when `count` proposals are listed. */
  function NewProposal(id: string, itemId: string, date: string, createdAt: int, count: nat): Proposal
  {
    Proposal(id, DisplayNumber(count), date, "", "", "", "", [BlankItem(itemId)],
             DefaultDelivery, DefaultPayment, createdAt)
  }

  /** What a new proposal starts with: no client, one blank item, the default terms, a number that encodes count + 1. */
  lemma NewProposalFacts(id: string, itemId: string, date: string, createdAt: int, count: nat)
    ensures var p := NewProposal(id, itemId, date, createdAt, count);
      && p.client == ""
      && |p.items| == 1 && p.items[0].qty == 1.0 && p.items[0].unit == 0.0 && p.items[0].total == 0.0
      && WellFormedItems(p.items) && Total(p.items) == 0.0
      && p.delivery == DefaultDelivery && p.payment == DefaultPayment
      && p.number[..4] == "RMX-" && AllDigits(p.number[4..]) && DecimalValue(p.number[4..]) == count + 1
  {
    var p := NewProposal(id, itemId, date, createdAt, count);
    assert p.items[..0] == [];
    DisplayNumberRoundTrip(count);
  }

  /** handleSave refuses when there is no working proposal or its client is empty. */
  predicate SaveRejected(current: Option<Proposal>)
  {
    current.None? || current.value.client == ""
  }

  /** The collection a successful save leaves: update by id when listed, else prepend. */
  function SavedCollection(proposals: seq<Proposal>, p: Proposal): seq<Proposal>
  {
    if ContainsId(proposals, p.id) then ReplaceById(proposals, p) else [p] + proposals
  }

  /**
   * After a save the proposal is listed, other proposals stay, the list grows
   * only for a new id, and unique ids stay unique with the saved one listed once.
   */
  lemma SavedCollectionFacts(proposals: seq<Proposal>, p: Proposal)
    ensures p in SavedCollection(proposals, p)
    ensures |SavedCollection(proposals, p)| == |proposals| + (if ContainsId(proposals, p.id) then 0 else 1)
    ensures forall q :: q in proposals && q.id != p.id ==> q in SavedCollection(proposals, p)
    ensures UniqueIds(proposals) ==>
      UniqueIds(SavedCollection(proposals, p)) && CountId(SavedCollection(proposals, p), p.id) == 1
  {
    var r := SavedCollection(proposals, p);
    if ContainsId(proposals, p.id) {
      var k :| 0 <= k < |proposals| && proposals[k].id == p.id;
      assert r[k] == p;
      forall q | q in proposals && q.id != p.id ensures q in r {
        var j :| 0 <= j < |proposals| && proposals[j] == q;
        assert r[j] == q;
      }
      if UniqueIds(proposals) {
        ReplaceByIdKeepsUnique(proposals, p);
        assert ContainsId(r, p.id);
        CountIdUnique(r, p.id);
      }
    } else {
      assert r[0] == p;
      forall q | q in proposals && q.id != p.id ensures q in r {
        var j :| 0 <= j < |proposals| && proposals[j] == q;
        assert r[j + 1] == q;
      }
      if UniqueIds(proposals) {
        PrependKeepsUnique(proposals, p);
        assert ContainsId(r, p.id);
        CountIdUnique(r, p.id);
      }
    }
  }

  /** Deleting a proposal just saved under a new id gives back the list as it was. */
  lemma SaveNewThenDelete(proposals: seq<Proposal>, p: Proposal)
    requires !ContainsId(proposals, p.id)
    ensures RemoveById(SavedCollection(proposals, p), p.id) == proposals
  {
    RemoveByIdAppend([p], proposals, p.id);
    assert RemoveById([p], p.id) == [];
    RemoveByIdAbsent(proposals, p.id);
  }

  /**
   * The number of a new proposal depends only on how many are listed, so
   * saving a new proposal and deleting it again hands out the same number.
   */
  lemma NumberRepeatsAfterDelete(proposals: seq<Proposal>, p: Proposal,
                                 id: string, itemId: string, date: string, createdAt: int)
    requires !ContainsId(proposals, p.id)
    ensures NewProposal(id, itemId, date, createdAt, |RemoveById(SavedCollection(proposals, p), p.id)|).number
         == NewProposal(id, itemId, date, createdAt, |proposals|).number
  {
    SaveNewThenDelete(proposals, p);
  }

  /** Saving two new proposals a and b in turn and deleting a leaves b in front of the old list. */
  lemma {:induction false} SaveTwoDeleteFirst(proposals: seq<Proposal>, a: Proposal, b: Proposal)
    requires !ContainsId(proposals, a.id) && !ContainsId(proposals, b.id) && a.id != b.id
    ensures RemoveById(SavedCollection(SavedCollection(proposals, a), b), a.id) == [b] + proposals
  {
    var withA := SavedCollection(proposals, a);
    assert withA == [a] + proposals;
    assert !ContainsId(withA, b.id);
    assert SavedCollection(withA, b) == [b] + ([a] + proposals);
    RemoveByIdAppend([b], [a] + proposals, a.id);
    SaveNewThenDelete(proposals, a);
    assert RemoveById([b], a.id) == [b];
  }

  /**
   * Two proposals a and b created and saved in turn, then a deleted: the next
   * new proposal c gets the number b still carries in the list.
   */
  lemma NumberCollidesAfterDelete(proposals: seq<Proposal>, a: Proposal, b: Proposal, c: Proposal)
    requires !ContainsId(proposals, a.id) && !ContainsId(proposals, b.id) && a.id != b.id
    requires a.number == DisplayNumber(|proposals|)
    requires b.number == DisplayNumber(|SavedCollection(proposals, a)|)
    requires c.number == DisplayNumber(|RemoveById(SavedCollection(SavedCollection(proposals, a), b), a.id)|)
    ensures b in RemoveById(SavedCollection(SavedCollection(proposals, a), b), a.id)
    ensures c.number == b.number && a.number != b.number
  {
    SaveTwoDeleteFirst(proposals, a, b);
    assert |SavedCollection(proposals, a)| == |proposals| + 1;
    if a.number == b.number {
      DisplayNumberInjective(|proposals|, |proposals| + 1);
    }
  }

  class App {
    const store: ProposalStore
    var view: ViewState
    var proposals: seq<Proposal>
    var current: Option<Proposal>
    var notif: Option<string>

    /** The list in memory is always what the store holds. */
    ghost predicate Valid()
      reads this, store
    {
      proposals == store.Contents()
    }

    /** Mounting the component: load the stored collection and show the dashboard. */
    constructor (store: ProposalStore)
      ensures this.store == store && Valid()
      ensures proposals == store.Contents()
      ensures view == Dashboard && current == None && notif == None
    {
      this.store := store;
      var loaded := store.GetProposals();
      proposals := loaded;
      view := Dashboard;
      current := None;
      notif := None;
    }

    method CreateNewProposal(id: string, itemId: string, date: string, createdAt: int)
      requires Valid()
      modifies this`current, this`view
      ensures Valid()
      ensures current == Some(NewProposal(id, itemId, date, createdAt, |proposals|))
      ensures view == Form
      ensures proposals == old(proposals) && notif == old(notif)
    {
      var p := NewProposal(id, itemId, date, createdAt, |proposals|);
      current := Some(p);
      view := Form;
    }

    method HandleSave()
      requires Valid()
      modifies this, store
      ensures Valid()
      ensures current == old(current)
      ensures SaveRejected(old(current)) ==>
        && proposals == old(proposals) && store.stored == old(store.stored)
        && view == old(view) && notif == Some(ClientRequiredMessage)
      ensures !SaveRejected(old(current)) ==>
        && proposals == SavedCollection(old(proposals), old(current).value)
        && view == Dashboard && notif == Some(SavedMessage)
      ensures UniqueIds(old(proposals)) ==> UniqueIds(proposals)
    {
      if current.None? || current.value.client == "" {
        notif := Some(ClientRequiredMessage);
        return;
      }
      var p := current.value;
      var isUpdate := ContainsId(proposals, p.id);
      var updated;
      if isUpdate {
        updated := store.UpdateProposal(p);
      } else {
        updated := store.AddProposal(p);
      }
      SavedCollectionFacts(old(proposals), p);
      proposals := updated;
      notif := Some(SavedMessage);
      view := Dashboard;
    }

    /** `confirmed` is the answer the user gave to the confirmation dialog. */
    method HandleDelete(id: string, confirmed: bool)
      requires Valid()
      modifies this, store
      ensures Valid()
      ensures view == old(view) && current == old(current)
      ensures !confirmed ==>
        proposals == old(proposals) && store.stored == old(store.stored) && notif == old(notif)
      ensures confirmed ==> proposals == RemoveById(old(proposals), id) && notif == Some(DeletedMessage)
      ensures UniqueIds(old(proposals)) ==> UniqueIds(proposals)
      ensures confirmed && UniqueIds(old(proposals)) && ContainsId(old(proposals), id) ==>
        |proposals| == |old(proposals)| - 1
    {
      if confirmed {
        var updated := store.DeleteProposal(id);
        if UniqueIds(proposals) {
          RemoveByIdKeepsUnique(proposals, id);
          if ContainsId(proposals, id) {
            RemoveByIdShrinksByOne(proposals, id);
          }
        }
        proposals := updated;
        notif := Some(DeletedMessage);
      }
    }

    /**
     * The part of optimizeItemDescription that runs before the rewrite service
     * is awaited. It returns the working proposal it captured, or None when the
     * handler returns early: no working proposal, no item with that id, or an
     * empty description.
     */
    method BeginOptimize(itemId: string) returns (snapshot: Option<Proposal>)
      ensures current.None? ==> snapshot.None?
      ensures current.Some? ==>
        var found := FindItem(current.value.items, itemId);
        snapshot == if found.None? || current.value.items[found.value].desc == "" then None else current
      ensures snapshot.Some? ==> HasItemId(snapshot.value.items, itemId)
    {
      if current.None? {
        return None;
      }
      var found := FindItem(current.value.items, itemId);
      if found.None? || current.value.items[found.value].desc == "" {
        return None;
      }
      return current;
    }

    /**
     * The part that runs once the service has answered with `optimized`: the
     * working proposal becomes the captured `snapshot` with that item's
     * description replaced, whatever the working proposal is by then.
     */
    method FinishOptimize(snapshot: Proposal, itemId: string, optimized: string)
      requires Valid()
      modifies this`current, this`notif
      ensures Valid()
      ensures proposals == old(proposals) && view == old(view)
      ensures current == Some(snapshot.(items := SetDesc(snapshot.items, itemId, optimized)))
      ensures notif == Some(OptimizedMessage)
      ensures WellFormedItems(snapshot.items) ==> WellFormedItems(current.value.items)
    {
      if WellFormedItems(snapshot.items) {
        SetDescKeepsWellFormed(snapshot.items, itemId, optimized);
      }
      current := Some(snapshot.(items := SetDesc(snapshot.items, itemId, optimized)));
      notif := Some(OptimizedMessage);
    }

    method EditClient(v: string)
      requires current.Some?
      modifies this`current
      ensures current == Some(old(current).value.(client := v))
    {
      current := Some(current.value.(client := v));
    }

    method AddItem(newId: string)
      requires current.Some?
      modifies this`current
      ensures current == Some(old(current).value.(items := Items.AddItem(old(current).value.items, newId)))
      ensures WellFormedItems(old(current).value.items) && !HasItemId(old(current).value.items, newId) ==>
        WellFormedItems(current.value.items)
    {
      var p := current.value;
      if WellFormedItems(p.items) && !HasItemId(p.items, newId) {
        AddItemKeepsWellFormed(p.items, newId);
      }
      current := Some(p.(items := Items.AddItem(p.items, newId)));
    }

    method RemoveItem(itemId: string)
      requires current.Some?
      modifies this`current
      ensures current == Some(old(current).value.(items := Items.RemoveItem(old(current).value.items, itemId)))
      ensures WellFormedItems(old(current).value.items) ==> WellFormedItems(current.value.items)
    {
      var p := current.value;
      if WellFormedItems(p.items) {
        RemoveItemKeepsWellFormed(p.items, itemId);
      }
      current := Some(p.(items := Items.RemoveItem(p.items, itemId)));
    }

    method EditItemDesc(itemId: string, v: string)
      requires current.Some?
      modifies this`current
      ensures current == Some(old(current).value.(items := SetDesc(old(current).value.items, itemId, v)))
      ensures WellFormedItems(old(current).value.items) ==> WellFormedItems(current.value.items)
    {
      var p := current.value;
      if WellFormedItems(p.items) {
        SetDescKeepsWellFormed(p.items, itemId, v);
      }
      current := Some(p.(items := SetDesc(p.items, itemId, v)));
    }

    /** `parsed` is parseFloat of the typed text, None when it is NaN. */
    method EditItemQty(itemId: string, parsed: Option<real>)
      requires current.Some?
      modifies this`current
      ensures current == Some(old(current).value.(items := SetQty(old(current).value.items, itemId, NumberOrZero(parsed))))
      ensures WellFormedItems(old(current).value.items) ==> WellFormedItems(current.value.items)
    {
      var p := current.value;
      var q := NumberOrZero(parsed);
      if WellFormedItems(p.items) {
        SetQtyKeepsWellFormed(p.items, itemId, q);
      }
      current := Some(p.(items := SetQty(p.items, itemId, q)));
    }

    /** Price edit of the item rendered at position k. */
    method EditItemUnit(k: nat, parsed: Option<real>)
      requires current.Some? && k < |current.value.items|
      modifies this`current
      ensures current == Some(old(current).value.(items := SetUnit(old(current).value.items, k, NumberOrZero(parsed))))
      ensures WellFormedItems(old(current).value.items) ==> WellFormedItems(current.value.items)
    {
      var p := current.value;
      var u := NumberOrZero(parsed);
      if WellFormedItems(p.items) {
        SetUnitKeepsWellFormed(p.items, k, u);
      }
      current := Some(p.(items := SetUnit(p.items, k, u)));
    }

    /** A dashboard card: show the proposal at position k read-only. */
    method OpenPreview(k: nat)
      requires k < |proposals|
      modifies this`current, this`view
      ensures current == Some(proposals[k]) && view == Preview
    {
      current := Some(proposals[k]);
      view := Preview;
    }

    /** The edit button of a dashboard card. */
    method OpenEdit(k: nat)
      requires k < |proposals|
      modifies this`current, this`view
      ensures current == Some(proposals[k]) && view == Form
    {
      current := Some(proposals[k]);
      view := Form;
    }

    /** The back arrow of the form and of the preview. */
    method BackToDashboard()
      modifies this`view
      ensures view == Dashboard
    {
      view := Dashboard;
    }
  }

  /**
   * A client name typed while a rewrite is pending is overwritten when the
   * rewrite completes, because the handler writes back the proposal it
   * captured before waiting.
   */
  method OptimizeLosesConcurrentEdit(app: App, itemId: string, typed: string, optimized: string)
    returns (snapshot: Option<Proposal>)
    requires app.Valid() && app.current.Some?
    modifies app`current, app`notif
    ensures app.current.Some?
    ensures snapshot.Some? ==> app.current.value.client == old(app.current.value.client)
    ensures snapshot.None? ==> app.current.value.client == typed
  {
    snapshot := app.BeginOptimize(itemId);
    app.EditClient(typed);
    if snapshot.Some? {
      app.FinishOptimize(snapshot.value, itemId, optimized);
    }
  }

  /**
   * A proposal opened while a rewrite is pending is replaced again by the
   * proposal the rewrite started from.
   */
  method OptimizeReopensOldProposal(app: App, itemId: string, k: nat, optimized: string)
    returns (snapshot: Option<Proposal>)
    requires app.Valid() && app.current.Some? && k < |app.proposals|
    modifies app`current, app`notif, app`view
    ensures app.current.Some? && app.view == Form
    ensures snapshot.Some? ==> snapshot.value == old(app.current.value)
    ensures snapshot.Some? ==>
      app.current == Some(snapshot.value.(items := SetDesc(snapshot.value.items, itemId, optimized)))
    ensures snapshot.Some? ==> app.current.value.id == old(app.current.value.id)
    ensures snapshot.None? ==> app.current == Some(app.proposals[k])
  {
    snapshot := app.BeginOptimize(itemId);
    app.OpenEdit(k);
    if snapshot.Some? {
      app.FinishOptimize(snapshot.value, itemId, optimized);
    }
  }
}
