/** FlightServiceImpl: the soft-delete CRUD contract over the flight table. */
module Flights {
  import opened Base
  import opened NotFound
  import opened Repository

  /** The columns of FlightEntity besides those of BaseEntity: the two
      airports, the aircraft and the airline are ids of referenced rows, and
      `bookings` is the entity's list of its bookings' ids. */
  datatype FlightColumns = FlightColumns(
    departureDate: Time,
    arrivalDate: Time,
    departureAirport: Option<Id>,
    destinationAirport: Option<Id>,
    aircraft: Option<Id>,
    airline: Option<Id>,
    price: int,
    bookings: seq<Id>)

  /** The fields of FlightDto besides those of BaseDto; the nested airport,
      aircraft and airline DTOs are represented by their ids. */
  datatype FlightFields = FlightFields(
    departureDate: Time,
    arrivalDate: Time,
    price: int,
    departureAirport: Option<Id>,
    destinationAirport: Option<Id>,
    aircraft: Option<Id>,
    airline: Option<Id>)

  function FieldsOf(c: FlightColumns): FlightFields {
    FlightFields(c.departureDate, c.arrivalDate, c.price, c.departureAirport,
                 c.destinationAirport, c.aircraft, c.airline)
  }

  /** The DTO-to-entity field copy. The mapper leaves the booking list null;
      the empty list stands for that null. */
  function ColumnsOf(f: FlightFields): (c: FlightColumns)
    ensures FieldsOf(c) == f
    ensures c.bookings == []
  {
    FlightColumns(f.departureDate, f.arrivalDate, f.departureAirport, f.destinationAirport,
                  f.aircraft, f.airline, f.price, [])
  }

  /** FLIGHT_MAPPER.toFlightDto: the base fields are copied, the deletion time
      is dropped, and the DTO fields determine every column but the booking list. */
  function ToFlightDto(e: Entity<FlightColumns>): (d: Dto<FlightFields>)
    ensures d.id == e.id && d.creationTime == e.creationTime && d.updateTime == e.updateTime
    ensures ColumnsOf(d.fields) == e.columns.(bookings := [])
  {
    ToDto(e, FieldsOf)
  }

  /** FLIGHT_MAPPER.toFlightEntity. */
  function ToFlightEntity(d: Dto<FlightFields>): (e: Entity<FlightColumns>)
    ensures ToFlightDto(e) == d
    ensures e.IsActive() && e.columns.bookings == []
  {
    ToEntity(d, ColumnsOf)
  }

  /** The setter sequence of updateFlight: departure date, arrival date and
      price are taken from the request; the airport, aircraft and airline
      references and the booking list are kept. */
  function ApplyUpdate(stored: FlightColumns, request: FlightFields): (c: FlightColumns)
    ensures c.departureDate == request.departureDate && c.arrivalDate == request.arrivalDate
    ensures c.price == request.price
    ensures c.departureAirport == stored.departureAirport
    ensures c.destinationAirport == stored.destinationAirport
    ensures c.aircraft == stored.aircraft && c.airline == stored.airline
    ensures c.bookings == stored.bookings
  {
    stored.(departureDate := request.departureDate, arrivalDate := request.arrivalDate,
            price := request.price)
  }

  class FlightService {
    const repository: Repository<FlightColumns>

    ghost predicate Valid()
      reads repository
    {
      repository.Valid()
    }

    constructor (repository: Repository<FlightColumns>)
      ensures this.repository == repository
    {
      this.repository := repository;
    }

    /** getAllFlights: the requested page of the active flights, in store
        order, each mapped to its DTO. */
    function GetAllFlights(pageable: PageRequest): (page: Page<Dto<FlightFields>>)
      reads repository
      requires Valid()
      ensures page.number == pageable.page
      ensures page.totalElements == |repository.Active()|
      ensures page.totalPages == TotalPages(|repository.Active()|, pageable.size)
      ensures page.size == pageable.size
      ensures |page.content| <= pageable.size
      ensures |page.content| ==
                if pageable.page * pageable.size < |repository.Active()|
                then Min(pageable.size, |repository.Active()| - pageable.page * pageable.size)
                else 0
      ensures forall k :: 0 <= k < |page.content| ==>
                pageable.page * pageable.size + k < |repository.ActiveRows()| &&
                page.content[k] == ToFlightDto(repository.ActiveRows()[pageable.page * pageable.size + k])
    {
      repository.MappedPage(pageable, ToFlightDto);
      MapPage(repository.FindAllByDeletionTimeIsNull(pageable), ToFlightDto)
    }

    /** getFlightById: the flight stored under `id`, soft-deleted or not,
        or FlightNotFoundException("id", id). */
    function GetFlightById(id: Id): (r: Result<Dto<FlightFields>, NotFoundError>)
      reads repository
      requires Valid()
      ensures r.Success? <==> id in repository.rows
      ensures r.Success? ==> r.value.id == id && r.value == ToFlightDto(repository.rows[id])
      ensures r.Failure? ==> r.error == ResourceNotFound(Flight, "id", IdText(id))
    {
      match repository.FindById(id)
      case Some(e) => Success(ToFlightDto(e))
      case None => Failure(ResourceNotFound(Flight, "id", IdText(id)))
    }

    /** addFlight: the caller's id is replaced by a fresh one and the row is
        inserted; the store stamps both timestamps with `now` when the
        service's transaction flushes, so the returned DTO still carries the
        caller's timestamps. */
    method AddFlight(dto: Dto<FlightFields>, now: Time) returns (r: Dto<FlightFields>)
      requires Valid()
      modifies repository
      ensures Valid()
      ensures r.id !in old(repository.rows)
      ensures r == Dto(r.id, dto.creationTime, dto.updateTime, dto.fields)
      ensures repository.rows == old(repository.rows)[r.id := ToFlightEntity(r.(creationTime := now, updateTime := now))]
      ensures repository.order == old(repository.order) + [r.id]
      ensures |repository.rows| == |old(repository.rows)| + 1
      ensures repository.Active() == old(repository.Active()) + [r.id]
      ensures GetFlightById(r.id) == Success(r.(creationTime := now, updateTime := now))
    {
      var entity := ToFlightEntity(dto);
      var id := repository.FreshId();
      entity := entity.(id := id);
      var pending := repository.SaveInTransaction(entity, now);
      ActiveIdsAppend(old(repository.order), old(repository.rows), id, repository.rows[id]);
      r := ToFlightDto(pending);
    }

    /** updateFlight, with the id of the request path (FlightController
        sets it on the DTO): the lookup comes first, so a missing id changes
        nothing; otherwise only the business fields are overwritten. The
        returned DTO is mapped before the transaction's flush refreshes
        updateTime, so it carries the previous one. */
    method UpdateFlight(id: Id, dto: Dto<FlightFields>, now: Time)
      returns (r: Result<Dto<FlightFields>, NotFoundError>)
      requires Valid()
      modifies repository
      ensures Valid()
      ensures r.Failure? <==> id !in old(repository.rows)
      ensures r.Failure? ==> r.error == ResourceNotFound(Flight, "id", IdText(id)) && unchanged(repository)
      ensures r.Success? ==>
                var before := old(repository.rows)[id];
                && repository.rows == old(repository.rows)[id := before.(updateTime := now,
                                                             columns := ApplyUpdate(before.columns, dto.fields))]
                && repository.order == old(repository.order)
                && repository.nextId == old(repository.nextId)
                && r.value == ToFlightDto(before.(columns := ApplyUpdate(before.columns, dto.fields)))
                && GetFlightById(id) == Success(r.value.(updateTime := now))
                && repository.Active() == old(repository.Active())
    {
      var request := dto.(id := id);
      var found := repository.FindById(request.id);
      if found.None? {
        return Failure(ResourceNotFound(Flight, "id", IdText(request.id)));
      }
      var entity := found.value;
      entity := entity.(columns := ApplyUpdate(entity.columns, request.fields));
      var pending := repository.SaveInTransaction(entity, now);
      ActiveIdsFrame(old(repository.order), old(repository.rows), repository.rows);
      r := Success(ToFlightDto(pending));
    }

    /** removeFlight: the row stays in the table with deletionTime set to
        `now` (overwriting an earlier one), so it leaves every listing but is
        still found by id. The returned DTO is mapped before the
        transaction's flush refreshes updateTime, so it is the DTO the row
        had before the removal. */
    method RemoveFlight(id: Id, now: Time) returns (r: Result<Dto<FlightFields>, NotFoundError>)
      requires Valid()
      modifies repository
      ensures Valid()
      ensures r.Failure? <==> id !in old(repository.rows)
      ensures r.Failure? ==> r.error == ResourceNotFound(Flight, "id", IdText(id)) && unchanged(repository)
      ensures r.Success? ==>
                var before := old(repository.rows)[id];
                && repository.rows == old(repository.rows)[id := before.(updateTime := now,
                                                             deletionTime := Some(now))]
                && repository.order == old(repository.order)
                && repository.nextId == old(repository.nextId)
                && r.value == ToFlightDto(before)
                && repository.Active() == Without(old(repository.Active()), id)
                && GetFlightById(id) == Success(r.value.(updateTime := now))
    {
      var found := repository.FindById(id);
      if found.None? {
        return Failure(ResourceNotFound(Flight, "id", IdText(id)));
      }
      var entity := found.value.(deletionTime := Some(now));
      var pending := repository.SaveInTransaction(entity, now);
      ActiveIdsSoftDelete(old(repository.order), old(repository.rows), id, repository.rows[id]);
      r := Success(ToFlightDto(pending));
    }
  }
}
