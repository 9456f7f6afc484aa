/** Types shared by every entity table: identifiers, instants, the common
    base record of every entity and of every DTO, and Spring Data paging. */
module Base {

  /** A row identifier. The source uses random UUIDs; the model only needs
      them to be comparable and freshly generated. */
  type Id = nat

  /** An instant (LocalDateTime). No arithmetic is done on instants. */
  type Time = int

  datatype Option<+T> = None | Some(value: T)

  datatype Result<+T, +E> = Success(value: T) | Failure(error: E)

  /** A stored row: the columns of BaseEntity followed by the entity's own
      columns. `deletionTime == None` means the row is active. */
  datatype Entity<+C> = Entity(
    id: Id,
    creationTime: Time,
    updateTime: Time,
    deletionTime: Option<Time>,
    columns: C)
  {
    predicate IsActive() {
      deletionTime.None?
    }
  }

  /** A data-transfer object: BaseDto (which has no deletionTime) followed by
      the entity's own fields. */
  datatype Dto<+F> = Dto(id: Id, creationTime: Time, updateTime: Time, fields: F)

  /** Entity-to-DTO mapping: the base columns are copied, the deletion time
      is dropped and the entity's columns are mapped by `f`. */
  function ToDto<C, F>(e: Entity<C>, f: C -> F): Dto<F> {
    Dto(e.id, e.creationTime, e.updateTime, f(e.columns))
  }

  /** DTO-to-entity mapping: the base fields are copied, the deletion time
      starts out null and the entity's columns are built by `g`. */
  function ToEntity<C, F>(d: Dto<F>, g: F -> C): Entity<C> {
    Entity(d.id, d.creationTime, d.updateTime, None, g(d.fields))
  }

  /** A mapper pair whose round trip is the identity on DTO fields. */
  ghost predicate RoundTrips<C(!new), F(!new)>(f: C -> F, g: F -> C) {
    forall x: F {:trigger g(x)} :: f(g(x)) == x
  }

  lemma DtoEntityRoundTrip<C(!new), F(!new)>(d: Dto<F>, f: C -> F, g: F -> C)
    requires RoundTrips(f, g)
    ensures ToDto(ToEntity(d, g), f) == d
  {
    assert f(g(d.fields)) == d.fields;
  }

  // ---------------------------------------------------------------- paging

  type Positive = n: nat | 1 <= n witness 1

  /** PageRequest.of(page, size): a zero-based page number and a page size
      of at least one (PageRequest refuses anything smaller). */
  datatype PageRequest = PageRequest(page: nat, size: Positive)

  /** A Spring Data Page: its content and metadata. */
  datatype Page<+T> = Page(
    content: seq<T>,
    number: nat,
    size: nat,
    totalElements: nat,
    totalPages: nat)

  /** The number of pages needed for `total` items, ceil(total / size). */
  function TotalPages(total: nat, size: Positive): (pages: nat)
    ensures pages * size >= total
    ensures pages > 0 ==> (pages - 1) * size < total
    ensures total == 0 <==> pages == 0
  {
    var q := (total + size - 1) / size;
    assert q * size <= total + size - 1 < q * size + size;
    q
  }

  function Min(a: int, b: int): int {
    if a <= b then a else b
  }

  /** The page `req` of the listing `all`: what a paged query returns. */
  function PageOf<T>(all: seq<T>, req: PageRequest): (p: Page<T>)
    ensures p.number == req.page && p.size == req.size
    ensures p.totalElements == |all| && p.totalPages == TotalPages(|all|, req.size)
    ensures |p.content| <= req.size
    ensures |p.content| == if req.page * req.size < |all| then Min(req.size, |all| - req.page * req.size) else 0
    ensures p.content != [] <==> req.page < p.totalPages
    ensures forall k :: 0 <= k < |p.content| ==>
              req.page * req.size + k < |all| && p.content[k] == all[req.page * req.size + k]
    ensures req.page + 1 < p.totalPages ==> |p.content| == req.size
  {
    var start := req.page * req.size;
    var total := TotalPages(|all|, req.size);
    var content := if start < |all| then all[start .. Min(start + req.size, |all|)] else [];
    PageBounds(req.page, req.size, total, |all|);
    Page(content, req.page, req.size, |all|, total)
  }

  /** Scaling by a non-negative factor keeps the order. */
  lemma MulLe(a: nat, b: nat, c: nat)
    requires a <= b
    ensures a * c <= b * c
  {
  }

  /** A page number lies below the page count exactly when the page starts
      inside the listing. */
  lemma PageBounds(page: nat, size: Positive, total: nat, n: nat)
    requires total == TotalPages(n, size)
    ensures page < total <==> page * size < n
    ensures page + 1 < total ==> (page + 1) * size < n
  {
    if page < total {
      MulLe(page, total - 1, size);
    } else {
      MulLe(total, page, size);
    }
    if page + 1 < total {
      MulLe(page + 1, total - 1, size);
    }
  }

  /** Map a function over the content of a page, keeping its metadata
      (Page.map). */
  function MapPage<T, U>(p: Page<T>, f: T -> U): (q: Page<U>)
    ensures q.number == p.number && q.size == p.size
    ensures q.totalElements == p.totalElements && q.totalPages == p.totalPages
    ensures |q.content| == |p.content|
    ensures forall k :: 0 <= k < |q.content| ==> q.content[k] == f(p.content[k])
  {
    Page(seq(|p.content|, k requires 0 <= k < |p.content| => f(p.content[k])),
         p.number, p.size, p.totalElements, p.totalPages)
  }

  /** The concatenated contents of the pages numbered `page` onwards. */
  function PagesFrom<T>(all: seq<T>, size: Positive, page: nat): seq<T>
    decreases |all| - page * size
  {
    if page * size >= |all| then []
    else
      assert (page + 1) * size == page * size + size;
      PageOf(all, PageRequest(page, size)).content + PagesFrom(all, size, page + 1)
  }

  /** Reading the pages from `page` onwards yields the listing from that
      page's first item, each item once and in order. */
  lemma {:induction false} PagesFromSuffix<T>(all: seq<T>, size: Positive, page: nat)
    requires page * size <= |all|
    ensures PagesFrom(all, size, page) == all[page * size..]
    decreases |all| - page * size
  {
    var start := page * size;
    if start < |all| {
      assert (page + 1) * size == start + size;
      var c := PageOf(all, PageRequest(page, size)).content;
      if start + size <= |all| {
        assert c == all[start .. start + size];
        PagesFromSuffix(all, size, page + 1);
        assert all[start..] == all[start .. start + size] + all[start + size..];
      } else {
        assert c == all[start..];
        assert (page + 1) * size >= |all|;
        assert PagesFrom(all, size, page + 1) == [];
      }
    }
  }

  /** Reading every page in turn yields the whole listing, in order. */
  lemma PagesCoverListing<T>(all: seq<T>, size: Positive)
    ensures PagesFrom(all, size, 0) == all
  {
    PagesFromSuffix(all, size, 0);
  }
}
