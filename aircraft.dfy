/** AircraftServiceImpl: the soft-delete CRUD contract over the aircraft table. */
module Aircrafts {
  import opened Base
  import opened NotFound
  import opened Repository

  /** The columns of AircraftEntity besides those of BaseEntity. `flights`
      is the entity's list of its flights' ids. */
  datatype AircraftColumns = AircraftColumns(
    modelName: string,
    code: string,
    seat: int,
    country: string,
    manufacturerDate: Time,
    flights: seq<Id>)

  /** The fields of AircraftDto besides those of BaseDto. */
  datatype AircraftFields = AircraftFields(
    modelName: string,
    code: string,
    seat: int,
    country: string,
    manufacturerDate: Time)

  function FieldsOf(c: AircraftColumns): AircraftFields {
    AircraftFields(c.modelName, c.code, c.seat, c.country, c.manufacturerDate)
  }

  /** The DTO-to-entity field copy. The mapper leaves the flight list null;
      the empty list stands for that null. */
  function ColumnsOf(f: AircraftFields): (c: AircraftColumns)
    ensures FieldsOf(c) == f
    ensures c.flights == []
  {
    AircraftColumns(f.modelName, f.code, f.seat, f.country, f.manufacturerDate, [])
  }

  /** AIRCRAFT_MAPPER.toAircraftDto: the base fields are copied, the deletion time
      is dropped, and the DTO fields determine every column but the flight list. */
  function ToAircraftDto(e: Entity<AircraftColumns>): (d: Dto<AircraftFields>)
    ensures d.id == e.id && d.creationTime == e.creationTime && d.updateTime == e.updateTime
    ensures ColumnsOf(d.fields) == e.columns.(flights := [])
  {
    ToDto(e, FieldsOf)
  }

  /** AIRCRAFT_MAPPER.toAircraftEntity. */
  function ToAircraftEntity(d: Dto<AircraftFields>): (e: Entity<AircraftColumns>)
    ensures ToAircraftDto(e) == d
    ensures e.IsActive() && e.columns.flights == []
  {
    ToEntity(d, ColumnsOf)
  }

  /** The setter sequence of updateAircraft: model name, code, seat and
      country are taken from the request; the manufacture date and the
      flight list are kept. */
  function ApplyUpdate(stored: AircraftColumns, request: AircraftFields): (c: AircraftColumns)
    ensures FieldsOf(c) == request.(manufacturerDate := stored.manufacturerDate)
    ensures c.flights == stored.flights
  {
    stored.(modelName := request.modelName, code := request.code, seat := request.seat,
            country := request.country)
  }

  class AircraftService {
    const repository: Repository<AircraftColumns>

    ghost predicate Valid()
      reads repository
    {
      repository.Valid()
    }

    constructor (repository: Repository<AircraftColumns>)
      ensures this.repository == repository
    {
      this.repository := repository;
    }

    /** getAllAircrafts: the requested page of the active aircraft, in store
        order, each mapped to its DTO. */
    function GetAllAircrafts(pageable: PageRequest): (page: Page<Dto<AircraftFields>>)
      reads repository
      requires Valid()
      ensures page.number == pageable.page
      ensures page.totalElements == |repository.Active()|
      ensures page.totalPages == TotalPages(|repository.Active()|, pageable.size)
      ensures page.size == pageable.size
      ensures |page.content| <= pageable.size
      ensures |page.content| ==
                if pageable.page * pageable.size < |repository.Active()|
                then Min(pageable.size, |repository.Active()| - pageable.page * pageable.size)
                else 0
      ensures forall k :: 0 <= k < |page.content| ==>
                pageable.page * pageable.size + k < |repository.ActiveRows()| &&
                page.content[k] == ToAircraftDto(repository.ActiveRows()[pageable.page * pageable.size + k])
    {
      repository.MappedPage(pageable, ToAircraftDto);
      MapPage(repository.FindAllByDeletionTimeIsNull(pageable), ToAircraftDto)
    }

    /** getAircraftById: the aircraft stored under `id`, soft-deleted or not,
        or AircraftNotFoundException("id", id). */
    function GetAircraftById(id: Id): (r: Result<Dto<AircraftFields>, NotFoundError>)
      reads repository
      requires Valid()
      ensures r.Success? <==> id in repository.rows
      ensures r.Success? ==> r.value.id == id && r.value == ToAircraftDto(repository.rows[id])
      ensures r.Failure? ==> r.error == ResourceNotFound(Aircraft, "id", IdText(id))
    {
      match repository.FindById(id)
      case Some(e) => Success(ToAircraftDto(e))
      case None => Failure(ResourceNotFound(Aircraft, "id", IdText(id)))
    }

    /** addAircraft: the caller's id is replaced by a fresh one and the row is
        inserted; the store stamps both timestamps with `now`. */
    method AddAircraft(dto: Dto<AircraftFields>, now: Time) returns (r: Dto<AircraftFields>)
      requires Valid()
      modifies repository
      ensures Valid()
      ensures r.id !in old(repository.rows)
      ensures r == Dto(r.id, now, now, dto.fields)
      ensures repository.rows == old(repository.rows)[r.id := ToAircraftEntity(r)]
      ensures repository.order == old(repository.order) + [r.id]
      ensures |repository.rows| == |old(repository.rows)| + 1
      ensures repository.Active() == old(repository.Active()) + [r.id]
      ensures GetAircraftById(r.id) == Success(r)
    {
      var entity := ToAircraftEntity(dto);
      var id := repository.FreshId();
      entity := entity.(id := id);
      var saved := repository.Save(entity, now);
      ActiveIdsAppend(old(repository.order), old(repository.rows), id, saved);
      r := ToAircraftDto(saved);
    }

    /** updateAircraft, with the id of the request path (AircraftController
        sets it on the DTO): the lookup comes first, so a missing id changes
        nothing; otherwise only the business fields are overwritten. */
    method UpdateAircraft(id: Id, dto: Dto<AircraftFields>, now: Time)
      returns (r: Result<Dto<AircraftFields>, NotFoundError>)
      requires Valid()
      modifies repository
      ensures Valid()
      ensures r.Failure? <==> id !in old(repository.rows)
      ensures r.Failure? ==> r.error == ResourceNotFound(Aircraft, "id", IdText(id)) && unchanged(repository)
      ensures r.Success? ==>
                var before := old(repository.rows)[id];
                && repository.rows == old(repository.rows)[id := before.(updateTime := now,
                                                             columns := ApplyUpdate(before.columns, dto.fields))]
                && repository.order == old(repository.order)
                && repository.nextId == old(repository.nextId)
                && r.value == ToAircraftDto(repository.rows[id])
                && repository.Active() == old(repository.Active())
    {
      var request := dto.(id := id);
      var found := repository.FindById(request.id);
      if found.None? {
        return Failure(ResourceNotFound(Aircraft, "id", IdText(request.id)));
      }
      var entity := found.value;
      entity := entity.(columns := ApplyUpdate(entity.columns, request.fields));
      var saved := repository.Save(entity, now);
      ActiveIdsFrame(old(repository.order), old(repository.rows), repository.rows);
      r := Success(ToAircraftDto(saved));
    }

    /** removeAircraft: the row stays in the table with deletionTime set to
        `now` (overwriting an earlier one), so it leaves every listing but is
        still found by id. */
    method RemoveAircraft(id: Id, now: Time) returns (r: Result<Dto<AircraftFields>, NotFoundError>)
      requires Valid()
      modifies repository
      ensures Valid()
      ensures r.Failure? <==> id !in old(repository.rows)
      ensures r.Failure? ==> r.error == ResourceNotFound(Aircraft, "id", IdText(id)) && unchanged(repository)
      ensures r.Success? ==>
                var before := old(repository.rows)[id];
                && repository.rows == old(repository.rows)[id := before.(updateTime := now,
                                                             deletionTime := Some(now))]
                && repository.order == old(repository.order)
                && repository.nextId == old(repository.nextId)
                && r.value == ToAircraftDto(repository.rows[id])
                && repository.Active() == Without(old(repository.Active()), id)
                && GetAircraftById(id) == r
    {
      var found := repository.FindById(id);
      if found.None? {
        return Failure(ResourceNotFound(Aircraft, "id", IdText(id)));
      }
      var entity := found.value.(deletionTime := Some(now));
      var saved := repository.Save(entity, now);
      ActiveIdsSoftDelete(old(repository.order), old(repository.rows), id, saved);
      r := Success(ToAircraftDto(saved));
    }
  }
}
