/** BookingServiceImpl: the soft-delete CRUD contract over the booking table. */
module Bookings {
  import opened Base
  import opened NotFound
  import opened Repository

  /** The columns of BookingEntity besides those of BaseEntity. `customer`
      and `flight` are the ids of the referenced customer and flight rows. */
  datatype BookingColumns = BookingColumns(
    state: string,
    paymentDate: Time,
    paymentAmount: int,
    insurance: bool,
    luggage: int,
    customer: Option<Id>,
    flight: Option<Id>)

  /** The fields of BookingDto besides those of BaseDto; the nested customer
      and flight DTOs are represented by their ids. */
  datatype BookingFields = BookingFields(
    state: string,
    paymentDate: Time,
    paymentAmount: int,
    insurance: bool,
    luggage: int,
    customer: Option<Id>,
    flight: Option<Id>)

  function FieldsOf(c: BookingColumns): BookingFields {
    BookingFields(c.state, c.paymentDate, c.paymentAmount, c.insurance, c.luggage, c.customer, c.flight)
  }

  /** The DTO-to-entity field copy. */
  function ColumnsOf(f: BookingFields): (c: BookingColumns)
    ensures FieldsOf(c) == f
  {
    BookingColumns(f.state, f.paymentDate, f.paymentAmount, f.insurance, f.luggage, f.customer, f.flight)
  }

  /** BOOKING_MAPPER.toBookingDto: the base fields are copied, the deletion time
      is dropped, and the DTO fields determine every column. */
  function ToBookingDto(e: Entity<BookingColumns>): (d: Dto<BookingFields>)
    ensures d.id == e.id && d.creationTime == e.creationTime && d.updateTime == e.updateTime
    ensures ColumnsOf(d.fields) == e.columns
  {
    ToDto(e, FieldsOf)
  }

  /** BOOKING_MAPPER.toBookingEntity. */
  function ToBookingEntity(d: Dto<BookingFields>): (e: Entity<BookingColumns>)
    ensures ToBookingDto(e) == d
    ensures e.IsActive()
  {
    ToEntity(d, ColumnsOf)
  }

  /** The setter sequence of updateBooking: state, payment date, payment
      amount, insurance and luggage are taken from the request; the
      customer and flight references are kept. */
  function ApplyUpdate(stored: BookingColumns, request: BookingFields): (c: BookingColumns)
    ensures c.state == request.state && c.paymentDate == request.paymentDate
    ensures c.paymentAmount == request.paymentAmount && c.insurance == request.insurance
    ensures c.luggage == request.luggage
    ensures c.customer == stored.customer && c.flight == stored.flight
  {
    stored.(state := request.state, paymentDate := request.paymentDate,
            paymentAmount := request.paymentAmount, insurance := request.insurance,
            luggage := request.luggage)
  }

  class BookingService {
    const repository: Repository<BookingColumns>

    ghost predicate Valid()
      reads repository
    {
      repository.Valid()
    }

    constructor (repository: Repository<BookingColumns>)
      ensures this.repository == repository
    {
      this.repository := repository;
    }

    /** getAllBookings: the requested page of the active bookings, in store
        order, each mapped to its DTO. */
    function GetAllBookings(pageable: PageRequest): (page: Page<Dto<BookingFields>>)
      reads repository
      requires Valid()
      ensures page.number == pageable.page
      ensures page.totalElements == |repository.Active()|
      ensures page.totalPages == TotalPages(|repository.Active()|, pageable.size)
      ensures page.size == pageable.size
      ensures |page.content| <= pageable.size
      ensures |page.content| ==
                if pageable.page * pageable.size < |repository.Active()|
                then Min(pageable.size, |repository.Active()| - pageable.page * pageable.size)
                else 0
      ensures forall k :: 0 <= k < |page.content| ==>
                pageable.page * pageable.size + k < |repository.ActiveRows()| &&
                page.content[k] == ToBookingDto(repository.ActiveRows()[pageable.page * pageable.size + k])
    {
      repository.MappedPage(pageable, ToBookingDto);
      MapPage(repository.FindAllByDeletionTimeIsNull(pageable), ToBookingDto)
    }

    /** getBookingById: the booking stored under `id`, soft-deleted or not,
        or BookingNotFoundException("id", id). */
    function GetBookingById(id: Id): (r: Result<Dto<BookingFields>, NotFoundError>)
      reads repository
      requires Valid()
      ensures r.Success? <==> id in repository.rows
      ensures r.Success? ==> r.value.id == id && r.value == ToBookingDto(repository.rows[id])
      ensures r.Failure? ==> r.error == ResourceNotFound(Booking, "id", IdText(id))
    {
      match repository.FindById(id)
      case Some(e) => Success(ToBookingDto(e))
      case None => Failure(ResourceNotFound(Booking, "id", IdText(id)))
    }

    /** addBooking: the caller's id is replaced by a fresh one and the row is
        inserted; the store stamps both timestamps with `now` when the
        service's transaction flushes, so the returned DTO still carries the
        caller's timestamps. */
    method AddBooking(dto: Dto<BookingFields>, now: Time) returns (r: Dto<BookingFields>)
      requires Valid()
      modifies repository
      ensures Valid()
      ensures r.id !in old(repository.rows)
      ensures r == Dto(r.id, dto.creationTime, dto.updateTime, dto.fields)
      ensures repository.rows == old(repository.rows)[r.id := ToBookingEntity(r.(creationTime := now, updateTime := now))]
      ensures repository.order == old(repository.order) + [r.id]
      ensures |repository.rows| == |old(repository.rows)| + 1
      ensures repository.Active() == old(repository.Active()) + [r.id]
      ensures GetBookingById(r.id) == Success(r.(creationTime := now, updateTime := now))
    {
      var entity := ToBookingEntity(dto);
      var id := repository.FreshId();
      entity := entity.(id := id);
      var pending := repository.SaveInTransaction(entity, now);
      ActiveIdsAppend(old(repository.order), old(repository.rows), id, repository.rows[id]);
      r := ToBookingDto(pending);
    }

    /** updateBooking, with the id of the request path (BookingController
        sets it on the DTO): the lookup comes first, so a missing id changes
        nothing; otherwise only the business fields are overwritten. The
        returned DTO is mapped before the transaction's flush refreshes
        updateTime, so it carries the previous one. */
    method UpdateBooking(id: Id, dto: Dto<BookingFields>, now: Time)
      returns (r: Result<Dto<BookingFields>, NotFoundError>)
      requires Valid()
      modifies repository
      ensures Valid()
      ensures r.Failure? <==> id !in old(repository.rows)
      ensures r.Failure? ==> r.error == ResourceNotFound(Booking, "id", IdText(id)) && unchanged(repository)
      ensures r.Success? ==>
                var before := old(repository.rows)[id];
                && repository.rows == old(repository.rows)[id := before.(updateTime := now,
                                                             columns := ApplyUpdate(before.columns, dto.fields))]
                && repository.order == old(repository.order)
                && repository.nextId == old(repository.nextId)
                && r.value == ToBookingDto(before.(columns := ApplyUpdate(before.columns, dto.fields)))
                && GetBookingById(id) == Success(r.value.(updateTime := now))
                && repository.Active() == old(repository.Active())
    {
      var request := dto.(id := id);
      var found := repository.FindById(request.id);
      if found.None? {
        return Failure(ResourceNotFound(Booking, "id", IdText(request.id)));
      }
      var entity := found.value;
      entity := entity.(columns := ApplyUpdate(entity.columns, request.fields));
      var pending := repository.SaveInTransaction(entity, now);
      ActiveIdsFrame(old(repository.order), old(repository.rows), repository.rows);
      r := Success(ToBookingDto(pending));
    }

    /** removeBooking: the row stays in the table with deletionTime set to
        `now` (overwriting an earlier one), so it leaves every listing but is
        still found by id. The returned DTO is mapped before the
        transaction's flush refreshes updateTime, so it is the DTO the row
        had before the removal. */
    method RemoveBooking(id: Id, now: Time) returns (r: Result<Dto<BookingFields>, NotFoundError>)
      requires Valid()
      modifies repository
      ensures Valid()
      ensures r.Failure? <==> id !in old(repository.rows)
      ensures r.Failure? ==> r.error == ResourceNotFound(Booking, "id", IdText(id)) && unchanged(repository)
      ensures r.Success? ==>
                var before := old(repository.rows)[id];
                && repository.rows == old(repository.rows)[id := before.(updateTime := now,
                                                             deletionTime := Some(now))]
                && repository.order == old(repository.order)
                && repository.nextId == old(repository.nextId)
                && r.value == ToBookingDto(before)
                && repository.Active() == Without(old(repository.Active()), id)
                && GetBookingById(id) == Success(r.value.(updateTime := now))
    {
      var found := repository.FindById(id);
      if found.None? {
        return Failure(ResourceNotFound(Booking, "id", IdText(id)));
      }
      var entity := found.value.(deletionTime := Some(now));
      var pending := repository.SaveInTransaction(entity, now);
      ActiveIdsSoftDelete(old(repository.order), old(repository.rows), id, repository.rows[id]);
      r := Success(ToBookingDto(pending));
    }
  }
}
