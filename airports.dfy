/** AirportServiceImpl: the soft-delete CRUD contract over the airport table. */
module Airports {
  import opened Base
  import opened NotFound
  import opened Repository

  /** The columns of AirportEntity besides those of BaseEntity, with the
      ids of the flights departing from and arriving at the airport. */
  datatype AirportColumns = AirportColumns(
    name: string,
    code: string,
    city: string,
    departureFlights: seq<Id>,
    destinationFlights: seq<Id>)

  /** The fields of AirportDto besides those of BaseDto. */
  datatype AirportFields = AirportFields(name: string, code: string, city: string)

  function FieldsOf(c: AirportColumns): AirportFields {
    AirportFields(c.name, c.code, c.city)
  }

  /** The DTO-to-entity field copy. The mapper leaves both flight lists null;
      the empty lists stand for those nulls. */
  function ColumnsOf(f: AirportFields): (c: AirportColumns)
    ensures FieldsOf(c) == f
    ensures c.departureFlights == [] && c.destinationFlights == []
  {
    AirportColumns(f.name, f.code, f.city, [], [])
  }

  /** AIRPORT_MAPPER.toAirportDto: the base fields are copied, the deletion time
      is dropped, and the DTO fields determine every column but the two flight lists. */
  function ToAirportDto(e: Entity<AirportColumns>): (d: Dto<AirportFields>)
    ensures d.id == e.id && d.creationTime == e.creationTime && d.updateTime == e.updateTime
    ensures ColumnsOf(d.fields) == e.columns.(departureFlights := [], destinationFlights := [])
  {
    ToDto(e, FieldsOf)
  }

  /** AIRPORT_MAPPER.toAirportEntity. */
  function ToAirportEntity(d: Dto<AirportFields>): (e: Entity<AirportColumns>)
    ensures ToAirportDto(e) == d
    ensures e.IsActive() && e.columns.departureFlights == [] && e.columns.destinationFlights == []
  {
    ToEntity(d, ColumnsOf)
  }

  /** The setter sequence of updateAirport: name, code and city are taken
      from the request; both flight lists are kept. */
  function ApplyUpdate(stored: AirportColumns, request: AirportFields): (c: AirportColumns)
    ensures FieldsOf(c) == request
    ensures c.departureFlights == stored.departureFlights
    ensures c.destinationFlights == stored.destinationFlights
  {
    stored.(name := request.name, code := request.code, city := request.city)
  }

  class AirportService {
    const repository: Repository<AirportColumns>

    ghost predicate Valid()
      reads repository
    {
      repository.Valid()
    }

    constructor (repository: Repository<AirportColumns>)
      ensures this.repository == repository
    {
      this.repository := repository;
    }

    /** getAllAirports: the requested page of the active airports, in store
        order, each mapped to its DTO. */
    function GetAllAirports(pageable: PageRequest): (page: Page<Dto<AirportFields>>)
      reads repository
      requires Valid()
      ensures page.number == pageable.page
      ensures page.totalElements == |repository.Active()|
      ensures page.totalPages == TotalPages(|repository.Active()|, pageable.size)
      ensures page.size == pageable.size
      ensures |page.content| <= pageable.size
      ensures |page.content| ==
                if pageable.page * pageable.size < |repository.Active()|
                then Min(pageable.size, |repository.Active()| - pageable.page * pageable.size)
                else 0
      ensures forall k :: 0 <= k < |page.content| ==>
                pageable.page * pageable.size + k < |repository.ActiveRows()| &&
                page.content[k] == ToAirportDto(repository.ActiveRows()[pageable.page * pageable.size + k])
    {
      repository.MappedPage(pageable, ToAirportDto);
      MapPage(repository.FindAllByDeletionTimeIsNull(pageable), ToAirportDto)
    }

    /** getAirportById: the airport stored under `id`, soft-deleted or not,
        or AirportNotFoundException("id", id). */
    function GetAirportById(id: Id): (r: Result<Dto<AirportFields>, NotFoundError>)
      reads repository
      requires Valid()
      ensures r.Success? <==> id in repository.rows
      ensures r.Success? ==> r.value.id == id && r.value == ToAirportDto(repository.rows[id])
      ensures r.Failure? ==> r.error == ResourceNotFound(Airport, "id", IdText(id))
    {
      match repository.FindById(id)
      case Some(e) => Success(ToAirportDto(e))
      case None => Failure(ResourceNotFound(Airport, "id", IdText(id)))
    }

    /** addAirport: the caller's id is replaced by a fresh one and the row is
        inserted; the store stamps both timestamps with `now`. */
    method AddAirport(dto: Dto<AirportFields>, now: Time) returns (r: Dto<AirportFields>)
      requires Valid()
      modifies repository
      ensures Valid()
      ensures r.id !in old(repository.rows)
      ensures r == Dto(r.id, now, now, dto.fields)
      ensures repository.rows == old(repository.rows)[r.id := ToAirportEntity(r)]
      ensures repository.order == old(repository.order) + [r.id]
      ensures |repository.rows| == |old(repository.rows)| + 1
      ensures repository.Active() == old(repository.Active()) + [r.id]
      ensures GetAirportById(r.id) == Success(r)
    {
      var entity := ToAirportEntity(dto);
      var id := repository.FreshId();
      entity := entity.(id := id);
      var saved := repository.Save(entity, now);
      ActiveIdsAppend(old(repository.order), old(repository.rows), id, saved);
      r := ToAirportDto(saved);
    }

    /** updateAirport, with the id of the request path (AirportController
        sets it on the DTO): the lookup comes first, so a missing id changes
        nothing; otherwise only the business fields are overwritten. */
    method UpdateAirport(id: Id, dto: Dto<AirportFields>, now: Time)
      returns (r: Result<Dto<AirportFields>, NotFoundError>)
      requires Valid()
      modifies repository
      ensures Valid()
      ensures r.Failure? <==> id !in old(repository.rows)
      ensures r.Failure? ==> r.error == ResourceNotFound(Airport, "id", IdText(id)) && unchanged(repository)
      ensures r.Success? ==>
                var before := old(repository.rows)[id];
                && repository.rows == old(repository.rows)[id := before.(updateTime := now,
                                                             columns := ApplyUpdate(before.columns, dto.fields))]
                && repository.order == old(repository.order)
                && repository.nextId == old(repository.nextId)
                && r.value == ToAirportDto(repository.rows[id])
                && repository.Active() == old(repository.Active())
    {
      var request := dto.(id := id);
      var found := repository.FindById(request.id);
      if found.None? {
        return Failure(ResourceNotFound(Airport, "id", IdText(request.id)));
      }
      var entity := found.value;
      entity := entity.(columns := ApplyUpdate(entity.columns, request.fields));
      var saved := repository.Save(entity, now);
      ActiveIdsFrame(old(repository.order), old(repository.rows), repository.rows);
      r := Success(ToAirportDto(saved));
    }

    /** removeAirport: the row stays in the table with deletionTime set to
        `now` (overwriting an earlier one), so it leaves every listing but is
        still found by id. */
    method RemoveAirport(id: Id, now: Time) returns (r: Result<Dto<AirportFields>, NotFoundError>)
      requires Valid()
      modifies repository
      ensures Valid()
      ensures r.Failure? <==> id !in old(repository.rows)
      ensures r.Failure? ==> r.error == ResourceNotFound(Airport, "id", IdText(id)) && unchanged(repository)
      ensures r.Success? ==>
                var before := old(repository.rows)[id];
                && repository.rows == old(repository.rows)[id := before.(updateTime := now,
                                                             deletionTime := Some(now))]
                && repository.order == old(repository.order)
                && repository.nextId == old(repository.nextId)
                && r.value == ToAirportDto(repository.rows[id])
                && repository.Active() == Without(old(repository.Active()), id)
                && GetAirportById(id) == r
    {
      var found := repository.FindById(id);
      if found.None? {
        return Failure(ResourceNotFound(Airport, "id", IdText(id)));
      }
      var entity := found.value.(deletionTime := Some(now));
      var saved := repository.Save(entity, now);
      ActiveIdsSoftDelete(old(repository.order), old(repository.rows), id, saved);
      r := Success(ToAirportDto(saved));
    }
  }
}
