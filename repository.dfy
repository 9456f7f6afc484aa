/** The entity store behind every *Repository interface (a Spring Data
    JpaRepository): a keyed table of rows listed in insertion order, with the
    three operations the services call (findById, save and the paged
    findAllByDeletionTimeIsNull) and the id generator the services draw
    fresh ids from. */
module Repository {
  import opened Base

  predicate NoDuplicates(s: seq<Id>) {
    forall i, j :: 0 <= i < j < |s| ==> s[i] != s[j]
  }

  /** The ids of the active rows, in the order of `order`. */
  function ActiveIds<C>(order: seq<Id>, rows: map<Id, Entity<C>>): (r: seq<Id>)
    ensures forall x {:trigger x in r} :: x in r <==> x in order && x in rows && rows[x].IsActive()
    ensures |r| <= |order|
    ensures NoDuplicates(order) ==> NoDuplicates(r)
  {
    if order == [] then []
    else
      var last := order[|order| - 1];
      var rest := ActiveIds(order[..|order| - 1], rows);
      assert forall x :: x in order[..|order| - 1] ==> x in order;
      assert order == order[..|order| - 1] + [last];
      assert NoDuplicates(order) ==> last !in order[..|order| - 1];
      assert NoDuplicates(order) ==> last !in rest;
      if last in rows && rows[last].IsActive() then rest + [last] else rest
  }

  /** `s` with every occurrence of `x` taken out, order kept. */
  function Without(s: seq<Id>, x: Id): (r: seq<Id>)
    ensures forall y :: y in r <==> y in s && y != x
  {
    if s == [] then []
    else if s[|s| - 1] == x then Without(s[..|s| - 1], x)
    else
      assert forall y :: y in s[..|s| - 1] ==> y in s;
      assert s == s[..|s| - 1] + [s[|s| - 1]];
      Without(s[..|s| - 1], x) + [s[|s| - 1]]
  }

  /** Taking `x` out of a listing that does not hold it changes nothing. */
  lemma {:induction false} WithoutAbsent(s: seq<Id>, x: Id)
    requires x !in s
    ensures Without(s, x) == s
  {
    if s != [] {
      assert x !in s[..|s| - 1];
      WithoutAbsent(s[..|s| - 1], x);
    }
  }

  /** Taking `x` out of `a + [x] + b`, where `x` occurs only once, leaves
      `a + b`. */
  lemma {:induction false} WithoutOnce(a: seq<Id>, x: Id, b: seq<Id>)
    requires x !in a && x !in b
    ensures Without(a + [x] + b, x) == a + b
  {
    if b == [] {
      assert a + [x] + b == a + [x];
      assert (a + [x])[..|a + [x]| - 1] == a;
      WithoutAbsent(a, x);
      assert a + b == a;
    } else {
      var s := a + [x] + b;
      var init := b[..|b| - 1];
      assert s[..|s| - 1] == a + [x] + init;
      assert x !in init;
      WithoutOnce(a, x, init);
      assert a + b == (a + init) + [b[|b| - 1]];
    }
  }

  /** Two tables agree on which ids of `order` are present and active. */
  ghost predicate SameActivity<C>(order: seq<Id>, rows: map<Id, Entity<C>>, rows': map<Id, Entity<C>>) {
    forall x :: x in order ==>
      (x in rows && rows[x].IsActive()) == (x in rows' && rows'[x].IsActive())
  }

  /** The active listing depends only on which rows are present and active. */
  lemma {:induction false} ActiveIdsFrame<C>(order: seq<Id>, rows: map<Id, Entity<C>>, rows': map<Id, Entity<C>>)
    requires SameActivity(order, rows, rows')
    ensures ActiveIds(order, rows) == ActiveIds(order, rows')
  {
    if order != [] {
      assert forall x :: x in order[..|order| - 1] ==> x in order;
      ActiveIdsFrame(order[..|order| - 1], rows, rows');
    }
  }

  /** Soft-deleting row `x` takes exactly `x` out of the active listing. */
  lemma {:induction false} ActiveIdsSoftDelete<C>(order: seq<Id>, rows: map<Id, Entity<C>>, x: Id, e: Entity<C>)
    requires !e.IsActive()
    ensures ActiveIds(order, rows[x := e]) == Without(ActiveIds(order, rows), x)
  {
    if order != [] {
      var init := order[..|order| - 1];
      ActiveIdsSoftDelete(init, rows, x, e);
      var last := order[|order| - 1];
      if last in rows && rows[last].IsActive() && last != x {
        var rest := ActiveIds(init, rows);
        assert (rest + [last])[..|rest + [last]| - 1] == rest;
      }
    }
  }

  /** Extending a prefix of the order by its next id lists that id last
      when its row is active, and adds nothing otherwise. */
  lemma ActiveIdsPrefix<C>(order: seq<Id>, k: nat, rows: map<Id, Entity<C>>)
    requires k < |order|
    ensures ActiveIds(order[..k + 1], rows) ==
            ActiveIds(order[..k], rows) +
            (if order[k] in rows && rows[order[k]].IsActive() then [order[k]] else [])
  {
    assert order[..k + 1][..k] == order[..k];
  }

  /** Appending a new active row to the table appends its id to the active
      listing; appending an inactive one leaves the listing as it was. */
  lemma ActiveIdsAppend<C>(order: seq<Id>, rows: map<Id, Entity<C>>, x: Id, e: Entity<C>)
    requires x !in order
    ensures ActiveIds(order + [x], rows[x := e]) ==
            ActiveIds(order, rows) + (if e.IsActive() then [x] else [])
  {
    assert (order + [x])[..|order + [x]| - 1] == order;
    ActiveIdsFrame(order, rows, rows[x := e]);
  }

  class Repository<C> {
    /** The table, by id. */
    var rows: map<Id, Entity<C>>
    /** The ids of the table in insertion order: the order in which the model
        lists rows. The query itself fixes no order. */
    var order: seq<Id>
    /** The next value of the id generator; larger than every key. */
    var nextId: Id

    ghost predicate Valid()
      reads this
    {
      && (forall x :: x in rows ==> rows[x].id == x && x < nextId)
      && (forall x :: x in rows <==> x in order)
      && NoDuplicates(order)
    }

    constructor ()
      ensures Valid()
      ensures rows == map[] && order == [] && nextId == 0
    {
      rows := map[];
      order := [];
      nextId := 0;
    }

    /** findById: the row stored under `id`, soft-deleted or not. */
    function FindById(id: Id): (r: Option<Entity<C>>)
      reads this
      requires Valid()
      ensures r.Some? <==> id in rows
      ensures r.Some? ==> r.value == rows[id] && r.value.id == id
    {
      if id in rows then Some(rows[id]) else None
    }

    /** The ids of the active rows in store order. */
    function Active(): (r: seq<Id>)
      reads this
      requires Valid()
      ensures forall x :: x in r <==> x in rows && rows[x].IsActive()
      ensures NoDuplicates(r)
    {
      ActiveIds(order, rows)
    }

    /** The active rows in store order. */
    function ActiveRows(): (r: seq<Entity<C>>)
      reads this
      requires Valid()
      ensures |r| == |Active()|
      ensures forall k :: 0 <= k < |r| ==> Active()[k] in rows && r[k] == rows[Active()[k]]
      ensures forall k :: 0 <= k < |r| ==> r[k].IsActive() && r[k].id == Active()[k]
    {
      var ids := Active();
      var table := rows;
      seq(|ids|, k requires 0 <= k < |ids| => table[ids[k]])
    }

    /** findAllByDeletionTimeIsNull(pageable). */
    function FindAllByDeletionTimeIsNull(req: PageRequest): (p: Page<Entity<C>>)
      reads this
      requires Valid()
      ensures p == PageOf(ActiveRows(), req)
      ensures forall k :: 0 <= k < |p.content| ==> p.content[k].IsActive() && p.content[k].id in rows
    {
      PageOf(ActiveRows(), req)
    }

    /** Item `k` of a requested page, mapped by `f`, is `f` of the active row
        at position `page * size + k` of the listing. */
    lemma MappedPage<U>(req: PageRequest, f: Entity<C> -> U)
      requires Valid()
      ensures var q := MapPage(FindAllByDeletionTimeIsNull(req), f);
              forall k :: 0 <= k < |q.content| ==>
                req.page * req.size + k < |ActiveRows()| &&
                q.content[k] == f(ActiveRows()[req.page * req.size + k])
    {
    }

    /** UUID.randomUUID(): an id that no row has. */
    method FreshId() returns (id: Id)
      requires Valid()
      modifies this
      ensures Valid()
      ensures id !in rows
      ensures rows == old(rows) && order == old(order) && nextId == old(nextId) + 1
    {
      id := nextId;
      nextId := nextId + 1;
    }

    /** save(entity): an entity whose id is not yet a key is inserted, with
        creationTime and updateTime set to `now` (@CreationTimestamp,
        @UpdateTimestamp) and its id appended to the store order; one whose id
        is a key is written over that row as given, except that updateTime is
        refreshed to `now`. The saved row is returned. */
    method Save(e: Entity<C>, now: Time) returns (saved: Entity<C>)
      requires Valid()
      modifies this
      ensures Valid()
      ensures e.id !in old(rows) ==>
                saved == e.(creationTime := now, updateTime := now) && order == old(order) + [e.id]
      ensures e.id in old(rows) ==> saved == e.(updateTime := now) && order == old(order)
      ensures rows == old(rows)[e.id := saved]
      ensures nextId == if old(nextId) <= e.id then e.id + 1 else old(nextId)
    {
      if e.id in rows {
        saved := e.(updateTime := now);
      } else {
        saved := e.(creationTime := now, updateTime := now);
        order := order + [e.id];
      }
      rows := rows[e.id := saved];
      if nextId <= e.id {
        nextId := e.id + 1;
      }
    }

    /** save(entity) called from a @Transactional service: the save is only
        queued, and the flush at the end of the service call writes the row
        that `Save` describes, timestamps included. The instance handed back
        is the entity as given, because Hibernate fills @CreationTimestamp
        and @UpdateTimestamp at that flush, after the service has mapped its
        result. */
    method SaveInTransaction(e: Entity<C>, now: Time) returns (pending: Entity<C>)
      requires Valid()
      modifies this
      ensures Valid()
      ensures pending == e
      ensures e.id !in old(rows) ==>
                rows == old(rows)[e.id := e.(creationTime := now, updateTime := now)] &&
                order == old(order) + [e.id]
      ensures e.id in old(rows) ==> rows == old(rows)[e.id := e.(updateTime := now)] && order == old(order)
      ensures nextId == if old(nextId) <= e.id then e.id + 1 else old(nextId)
    {
      var flushed := Save(e, now);
      pending := e;
    }
  }
}
