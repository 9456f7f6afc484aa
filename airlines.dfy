/** AirlineServiceImpl: the soft-delete CRUD contract over the airline table. */
module Airlines {
  import opened Base
  import opened NotFound
  import opened Repository

  /** The columns of AirlineEntity besides those of BaseEntity. The entity
      declares the second column as `county`; the service and the DTO use
      `country`, which is the name kept here. `flights` is the entity's list
      of its flights' ids. */
  datatype AirlineColumns = AirlineColumns(name: string, country: string, flights: seq<Id>)

  /** The fields of AirlineDto besides those of BaseDto. */
  datatype AirlineFields = AirlineFields(name: string, country: string)

  function FieldsOf(c: AirlineColumns): AirlineFields {
    AirlineFields(c.name, c.country)
  }

  /** The DTO-to-entity field copy. The mapper leaves the flight list null;
      the empty list stands for that null. */
  function ColumnsOf(f: AirlineFields): (c: AirlineColumns)
    ensures FieldsOf(c) == f
    ensures c.flights == []
  {
    AirlineColumns(f.name, f.country, [])
  }

  /** AIRLINE_MAPPER.toAirlineDto: the base fields are copied, the deletion time
      is dropped, and the DTO fields determine every column but the flight list. */
  function ToAirlineDto(e: Entity<AirlineColumns>): (d: Dto<AirlineFields>)
    ensures d.id == e.id && d.creationTime == e.creationTime && d.updateTime == e.updateTime
    ensures ColumnsOf(d.fields) == e.columns.(flights := [])
  {
    ToDto(e, FieldsOf)
  }

  /** AIRLINE_MAPPER.toAirlineEntity. */
  function ToAirlineEntity(d: Dto<AirlineFields>): (e: Entity<AirlineColumns>)
    ensures ToAirlineDto(e) == d
    ensures e.IsActive() && e.columns.flights == []
  {
    ToEntity(d, ColumnsOf)
  }

  /** The setter sequence of updateAirline: name and country are taken from
      the request; the flight list is kept. */
  function ApplyUpdate(stored: AirlineColumns, request: AirlineFields): (c: AirlineColumns)
    ensures FieldsOf(c) == request
    ensures c.flights == stored.flights
  {
    stored.(name := request.name, country := request.country)
  }

  class AirlineService {
    const repository: Repository<AirlineColumns>

    ghost predicate Valid()
      reads repository
    {
      repository.Valid()
    }

    constructor (repository: Repository<AirlineColumns>)
      ensures this.repository == repository
    {
      this.repository := repository;
    }

    /** getAllAirlines: the requested page of the active airlines, in store
        order, each mapped to its DTO. */
    function GetAllAirlines(pageable: PageRequest): (page: Page<Dto<AirlineFields>>)
      reads repository
      requires Valid()
      ensures page.number == pageable.page
      ensures page.totalElements == |repository.Active()|
      ensures page.totalPages == TotalPages(|repository.Active()|, pageable.size)
      ensures page.size == pageable.size
      ensures |page.content| <= pageable.size
      ensures |page.content| ==
                if pageable.page * pageable.size < |repository.Active()|
                then Min(pageable.size, |repository.Active()| - pageable.page * pageable.size)
                else 0
      ensures forall k :: 0 <= k < |page.content| ==>
                pageable.page * pageable.size + k < |repository.ActiveRows()| &&
                page.content[k] == ToAirlineDto(repository.ActiveRows()[pageable.page * pageable.size + k])
    {
      repository.MappedPage(pageable, ToAirlineDto);
      MapPage(repository.FindAllByDeletionTimeIsNull(pageable), ToAirlineDto)
    }

    /** getAirlineById: the airline stored under `id`, soft-deleted or not,
        or AirlineNotFoundException("id", id). */
    function GetAirlineById(id: Id): (r: Result<Dto<AirlineFields>, NotFoundError>)
      reads repository
      requires Valid()
      ensures r.Success? <==> id in repository.rows
      ensures r.Success? ==> r.value.id == id && r.value == ToAirlineDto(repository.rows[id])
      ensures r.Failure? ==> r.error == ResourceNotFound(Airline, "id", IdText(id))
    {
      match repository.FindById(id)
      case Some(e) => Success(ToAirlineDto(e))
      case None => Failure(ResourceNotFound(Airline, "id", IdText(id)))
    }

    /** addAirline: the caller's id is replaced by a fresh one and the row is
        inserted; the store stamps both timestamps with `now`. */
    method AddAirline(dto: Dto<AirlineFields>, now: Time) returns (r: Dto<AirlineFields>)
      requires Valid()
      modifies repository
      ensures Valid()
      ensures r.id !in old(repository.rows)
      ensures r == Dto(r.id, now, now, dto.fields)
      ensures repository.rows == old(repository.rows)[r.id := ToAirlineEntity(r)]
      ensures repository.order == old(repository.order) + [r.id]
      ensures |repository.rows| == |old(repository.rows)| + 1
      ensures repository.Active() == old(repository.Active()) + [r.id]
      ensures GetAirlineById(r.id) == Success(r)
    {
      var entity := ToAirlineEntity(dto);
      var id := repository.FreshId();
      entity := entity.(id := id);
      var saved := repository.Save(entity, now);
      ActiveIdsAppend(old(repository.order), old(repository.rows), id, saved);
      r := ToAirlineDto(saved);
    }

    /** updateAirline, with the id of the request path (AirlineController
        sets it on the DTO): the lookup comes first, so a missing id changes
        nothing; otherwise only the business fields are overwritten. */
    method UpdateAirline(id: Id, dto: Dto<AirlineFields>, now: Time)
      returns (r: Result<Dto<AirlineFields>, NotFoundError>)
      requires Valid()
      modifies repository
      ensures Valid()
      ensures r.Failure? <==> id !in old(repository.rows)
      ensures r.Failure? ==> r.error == ResourceNotFound(Airline, "id", IdText(id)) && unchanged(repository)
      ensures r.Success? ==>
                var before := old(repository.rows)[id];
                && repository.rows == old(repository.rows)[id := before.(updateTime := now,
                                                             columns := ApplyUpdate(before.columns, dto.fields))]
                && repository.order == old(repository.order)
                && repository.nextId == old(repository.nextId)
                && r.value == ToAirlineDto(repository.rows[id])
                && repository.Active() == old(repository.Active())
    {
      var request := dto.(id := id);
      var found := repository.FindById(request.id);
      if found.None? {
        return Failure(ResourceNotFound(Airline, "id", IdText(request.id)));
      }
      var entity := found.value;
      entity := entity.(columns := ApplyUpdate(entity.columns, request.fields));
      var saved := repository.Save(entity, now);
      ActiveIdsFrame(old(repository.order), old(repository.rows), repository.rows);
      r := Success(ToAirlineDto(saved));
    }

    /** removeAirline: the row stays in the table with deletionTime set to
        `now` (overwriting an earlier one), so it leaves every listing but is
        still found by id. */
    method RemoveAirline(id: Id, now: Time) returns (r: Result<Dto<AirlineFields>, NotFoundError>)
      requires Valid()
      modifies repository
      ensures Valid()
      ensures r.Failure? <==> id !in old(repository.rows)
      ensures r.Failure? ==> r.error == ResourceNotFound(Airline, "id", IdText(id)) && unchanged(repository)
      ensures r.Success? ==>
                var before := old(repository.rows)[id];
                && repository.rows == old(repository.rows)[id := before.(updateTime := now,
                                                             deletionTime := Some(now))]
                && repository.order == old(repository.order)
                && repository.nextId == old(repository.nextId)
                && r.value == ToAirlineDto(repository.rows[id])
                && repository.Active() == Without(old(repository.Active()), id)
                && GetAirlineById(id) == r
    {
      var found := repository.FindById(id);
      if found.None? {
        return Failure(ResourceNotFound(Airline, "id", IdText(id)));
      }
      var entity := found.value.(deletionTime := Some(now));
      var saved := repository.Save(entity, now);
      ActiveIdsSoftDelete(old(repository.order), old(repository.rows), id, saved);
      r := Success(ToAirlineDto(saved));
    }
  }
}
