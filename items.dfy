/**
 * The list logic of the inventory page: the filtered view of the items, adding and removing
 * an item, and choosing a default child when the children are loaded. Requests to the server
 * are not modelled; what the server answers is a parameter.
 */
module Items {
  import opened Wrappers
  import opened Records

  /** `r` keeps some of the elements of `s`, in their order in `s`. */
  predicate IsSubsequence<T(==)>(r: seq<T>, s: seq<T>)
    decreases |s|
  {
    if r == [] then true
    else if s == [] then false
    else (r[0] == s[0] && IsSubsequence(r[1..], s[1..])) || IsSubsequence(r, s[1..])
  }

  /** `Array.prototype.filter`: the elements of `s` that `keep` accepts. */
  function Filter<T>(s: seq<T>, keep: T -> bool): seq<T> {
    if s == [] then []
    else (if keep(s[0]) then [s[0]] else []) + Filter(s[1..], keep)
  }

  /** Filtering keeps exactly the elements `keep` accepts. */
  lemma {:induction false} FilterMembers<T(!new)>(s: seq<T>, keep: T -> bool)
    ensures |Filter(s, keep)| <= |s|
    ensures forall x :: x in Filter(s, keep) <==> x in s && keep(x)
  {
    if s != [] {
      FilterMembers(s[1..], keep);
      assert s == [s[0]] + s[1..];
    }
  }

  /** Filtering keeps every accepted element as often as it occurs. */
  lemma {:induction false} FilterCounts<T(!new)>(s: seq<T>, keep: T -> bool)
    ensures forall x :: multiset(Filter(s, keep))[x] == if keep(x) then multiset(s)[x] else 0
  {
    if s != [] {
      FilterCounts(s[1..], keep);
      assert s == [s[0]] + s[1..];
    }
  }

  /** Filtering keeps the order of the elements it keeps. */
  lemma {:induction false} FilterKeepsOrder<T>(s: seq<T>, keep: T -> bool)
    ensures IsSubsequence(Filter(s, keep), s)
  {
    if s != [] {
      FilterKeepsOrder(s[1..], keep);
      var rest := Filter(s[1..], keep);
      if keep(s[0]) {
        assert ([s[0]] + rest)[0] == s[0] && ([s[0]] + rest)[1..] == rest;
      } else {
        assert [] + rest == rest;
      }
    }
  }

  /** Filtering by a test every element passes drops nothing. */
  lemma {:induction false} FilterAll<T>(s: seq<T>, keep: T -> bool)
    ensures (forall k :: 0 <= k < |s| ==> keep(s[k])) ==> Filter(s, keep) == s
  {
    if s != [] && forall k :: 0 <= k < |s| ==> keep(s[k]) {
      FilterAll(s[1..], keep);
      assert s == [s[0]] + s[1..];
    }
  }

  /** Two filters applied one after the other give the same list in either order. */
  lemma {:induction false} FilterCommutes<T>(s: seq<T>, p: T -> bool, q: T -> bool)
    ensures Filter(Filter(s, p), q) == Filter(Filter(s, q), p)
  {
    if s != [] {
      FilterCommutes(s[1..], p, q);
      var x, rest := s[0], s[1..];
      FilterHead(x, rest, p);
      FilterHead(x, rest, q);
      FilterAppend(if p(x) then [x] else [], Filter(rest, p), q);
      FilterAppend(if q(x) then [x] else [], Filter(rest, q), p);
    }
  }

  /** Unfolding a filter of a non-empty list. */
  lemma FilterHead<T>(x: T, rest: seq<T>, keep: T -> bool)
    ensures Filter([x] + rest, keep) == (if keep(x) then [x] else []) + Filter(rest, keep)
  {
    assert ([x] + rest)[0] == x && ([x] + rest)[1..] == rest;
  }

  /** An item passes the filters: an empty child or status filter lets every item through. */
  predicate Matches(i: Item, childFilter: string, statusFilter: string) {
    (childFilter == "" || i.childId == childFilter) && (statusFilter == "" || StatusName(i.status) == statusFilter)
  }

  /** The `filtered` list: the items that pass both filters, in their original order. */
  function FilterItems(items: seq<Item>, childFilter: string, statusFilter: string): (r: seq<Item>)
    ensures forall i :: i in r <==>
      i in items && (childFilter == "" || i.childId == childFilter)
                 && (statusFilter == "" || StatusName(i.status) == statusFilter)
    ensures IsSubsequence(r, items)
    ensures forall i :: multiset(r)[i] == if Matches(i, childFilter, statusFilter) then multiset(items)[i] else 0
    ensures childFilter == "" && statusFilter == "" ==> r == items
  {
    var keep := i => Matches(i, childFilter, statusFilter);
    FilterMembers(items, keep);
    FilterCounts(items, keep);
    FilterKeepsOrder(items, keep);
    FilterAll(items, keep);
    Filter(items, keep)
  }

  /** The items left after deleting the one with id `id`: every other item, in order. */
  function RemoveById(items: seq<Item>, id: string): (r: seq<Item>)
    ensures forall i :: i in r ==> i.id != id
    ensures forall i :: i in items && i.id != id ==> i in r
    ensures forall i: Item :: i.id != id ==> multiset(r)[i] == multiset(items)[i]
    ensures IsSubsequence(r, items)
    ensures (forall k :: 0 <= k < |items| ==> items[k].id != id) ==> r == items
  {
    var keep := (i: Item) => i.id != id;
    FilterMembers(items, keep);
    FilterCounts(items, keep);
    FilterKeepsOrder(items, keep);
    FilterAll(items, keep);
    Filter(items, keep)
  }

  /** The add-item form. */
  datatype Form = Form(garment: Garment, size: string, season: Season, status: Status, notes: string)

  /** The form as it starts and as it is reset after an item is added. */
  const EMPTY_FORM: Form := Form(Jacket, "", Winter, Needed, "")

  /** The body of the request that creates an item: the form's fields and the selected child. */
  datatype NewItem = NewItem(form: Form, childId: string)

  /** The state of the inventory page. */
  class ItemsPage {
    var kids: seq<Kid>
    var items: seq<Item>
    /** The child filter, also the child a new item is added for; "" selects every child. */
    var childId: string
    /** The status filter; "" selects every status. */
    var status: string
    var form: Form
    /** The child filter when the page was first shown: what the load callback sees. */
    const childIdAtMount: string

    /** The page as first shown, with the child remembered from an earlier visit if any. */
    constructor (storedKidId: Option<string>)
      ensures kids == [] && items == []
      ensures childId == storedKidId.GetOr("") && childIdAtMount == childId
      ensures status == "needed" && form == EMPTY_FORM
    {
      kids := [];
      items := [];
      childId := storedKidId.GetOr("");
      childIdAtMount := storedKidId.GetOr("");
      status := "needed";
      form := EMPTY_FORM;
    }

    /** The items shown: those that pass the child and status filters. */
    function Filtered(): seq<Item>
      reads this
    {
      FilterItems(items, childId, status)
    }

    /**
     * The children have arrived: they are stored, and if no child was selected when the page
     * was shown and there is at least one child, the first becomes the selection.
     */
    method KidsLoaded(ks: seq<Kid>)
      modifies this
      ensures kids == ks
      ensures childId == if childIdAtMount == "" && |ks| > 0 then ks[0].id else old(childId)
      ensures items == old(items) && status == old(status) && form == old(form)
    {
      kids := ks;
      if childIdAtMount == "" && |ks| > 0 {
        childId := ks[0].id;
      }
    }

    /** The items have arrived: they replace the list. */
    method ItemsLoaded(fetched: seq<Item>)
      modifies this
      ensures items == fetched
      ensures kids == old(kids) && childId == old(childId) && status == old(status) && form == old(form)
    {
      items := fetched;
    }

    /** A child is picked in the child filter ("" for all children). */
    method SelectKid(id: string)
      modifies this
      ensures childId == id
      ensures kids == old(kids) && items == old(items) && status == old(status) && form == old(form)
    {
      childId := id;
    }

    /** A status is picked in the status filter ("" for all statuses). */
    method SelectStatus(s: string)
      modifies this
      ensures status == s
      ensures kids == old(kids) && items == old(items) && childId == old(childId) && form == old(form)
    {
      status := s;
    }

    /**
     * Submitting the form. Without a selected child nothing is sent and nothing changes.
     * Otherwise `request` is the body sent to the server, and `created` is its answer (`None`
     * when the request failed, which changes nothing): the created item is appended after the
     * existing ones and the form is reset. The shown list gains the new item at its end when
     * the item passes the filters, and is otherwise unchanged.
     */
    method AddItem(created: Option<Item>) returns (request: Option<NewItem>)
      modifies this
      ensures request == if old(childId) == "" then None else Some(NewItem(old(form), old(childId)))
      ensures if request.Some? && created.Some?
              then items == old(items) + [created.value] && form == EMPTY_FORM
              else items == old(items) && form == old(form)
      ensures kids == old(kids) && childId == old(childId) && status == old(status)
      ensures request.Some? && created.Some? && Matches(created.value, childId, status)
              ==> Filtered() == old(Filtered()) + [created.value]
      ensures !(request.Some? && created.Some? && Matches(created.value, childId, status))
              ==> Filtered() == old(Filtered())
    {
      if childId == "" {
        return None;
      }
      request := Some(NewItem(form, childId));
      if created.Some? {
        if Matches(created.value, childId, status) {
          AddedItemShownLast(items, created.value, childId, status);
        } else {
          AddedItemHidden(items, created.value, childId, status);
        }
        items := items + [created.value];
        form := EMPTY_FORM;
      }
    }

    /**
     * Deleting the item with id `id`; `deleted` is whether the server accepted the request.
     * On success no item with that id is left and every other item stays, in order; the shown
     * list loses exactly the items with that id.
     */
    method RemoveItem(id: string, deleted: bool)
      modifies this
      ensures items == if deleted then RemoveById(old(items), id) else old(items)
      ensures kids == old(kids) && childId == old(childId) && status == old(status) && form == old(form)
      ensures Filtered() == if deleted then RemoveById(old(Filtered()), id) else old(Filtered())
    {
      if deleted {
        RemoveCommutesWithFilter(items, id, childId, status);
        items := RemoveById(items, id);
      }
    }
  }

  /**
   * After an item is added for the selected child with a status that passes the status filter,
   * it is the last item shown.
   */
  lemma AddedItemShownLast(items: seq<Item>, created: Item, childFilter: string, statusFilter: string)
    requires Matches(created, childFilter, statusFilter)
    ensures FilterItems(items + [created], childFilter, statusFilter)
         == FilterItems(items, childFilter, statusFilter) + [created]
  {
    FilterAppend(items, [created], i => Matches(i, childFilter, statusFilter));
  }

  /** An added item that does not pass the filters leaves the shown list as it was. */
  lemma AddedItemHidden(items: seq<Item>, created: Item, childFilter: string, statusFilter: string)
    requires !Matches(created, childFilter, statusFilter)
    ensures FilterItems(items + [created], childFilter, statusFilter)
         == FilterItems(items, childFilter, statusFilter)
  {
    FilterAppend(items, [created], i => Matches(i, childFilter, statusFilter));
  }

  /** Filtering a concatenation is concatenating the filtered parts. */
  lemma {:induction false} FilterAppend<T>(s: seq<T>, t: seq<T>, keep: T -> bool)
    ensures Filter(s + t, keep) == Filter(s, keep) + Filter(t, keep)
  {
    if s == [] {
      assert s + t == t;
    } else {
      var x, rest := s[0], s[1..];
      assert s == [x] + rest && s + t == [x] + (rest + t);
      FilterAppend(rest, t, keep);
      FilterHead(x, rest, keep);
      FilterHead(x, rest + t, keep);
    }
  }

  /** Deleting an item by id removes it from the filtered view too, and nothing else. */
  lemma RemoveCommutesWithFilter(items: seq<Item>, id: string, childFilter: string, statusFilter: string)
    ensures FilterItems(RemoveById(items, id), childFilter, statusFilter)
         == RemoveById(FilterItems(items, childFilter, statusFilter), id)
  {
    FilterCommutes(items, (i: Item) => i.id != id, i => Matches(i, childFilter, statusFilter));
  }
}
