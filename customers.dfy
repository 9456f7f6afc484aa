/** CustomerServiceImpl: the soft-delete CRUD contract over the customer table. */
module Customers {
  import opened Base
  import opened NotFound
  import opened Repository

  /** The columns of CustomerEntity besides those of BaseEntity. `bookings`
      is the entity's list of its bookings' ids. */
  datatype CustomerColumns = CustomerColumns(
    name: string,
    surname: string,
    email: string,
    password: string,
    phone: string,
    age: int,
    city: string,
    country: string,
    bookings: seq<Id>)

  /** The fields of CustomerDto besides those of BaseDto. */
  datatype CustomerFields = CustomerFields(
    name: string,
    surname: string,
    email: string,
    password: string,
    phone: string,
    age: int,
    city: string,
    country: string)

  function FieldsOf(c: CustomerColumns): CustomerFields {
    CustomerFields(c.name, c.surname, c.email, c.password, c.phone, c.age, c.city, c.country)
  }

  /** The DTO-to-entity field copy. The mapper leaves the booking list null;
      the empty list stands for that null. */
  function ColumnsOf(f: CustomerFields): (c: CustomerColumns)
    ensures FieldsOf(c) == f
    ensures c.bookings == []
  {
    CustomerColumns(f.name, f.surname, f.email, f.password, f.phone, f.age, f.city, f.country, [])
  }

  /** CUSTOMER_MAPPER.toCustomerDto: the base fields are copied, the deletion time
      is dropped, and the DTO fields determine every column but the booking list. */
  function ToCustomerDto(e: Entity<CustomerColumns>): (d: Dto<CustomerFields>)
    ensures d.id == e.id && d.creationTime == e.creationTime && d.updateTime == e.updateTime
    ensures ColumnsOf(d.fields) == e.columns.(bookings := [])
  {
    ToDto(e, FieldsOf)
  }

  /** CUSTOMER_MAPPER.toCustomerEntity. */
  function ToCustomerEntity(d: Dto<CustomerFields>): (e: Entity<CustomerColumns>)
    ensures ToCustomerDto(e) == d
    ensures e.IsActive() && e.columns.bookings == []
  {
    ToEntity(d, ColumnsOf)
  }

  /** The setter sequence of updateCustomer: the eight business fields are
      taken from the request, the booking list is kept. */
  function ApplyUpdate(stored: CustomerColumns, request: CustomerFields): (c: CustomerColumns)
    ensures FieldsOf(c) == request
    ensures c.bookings == stored.bookings
  {
    stored.(name := request.name, surname := request.surname, email := request.email,
            password := request.password, phone := request.phone, age := request.age,
            city := request.city, country := request.country)
  }

  class CustomerService {
    const repository: Repository<CustomerColumns>

    ghost predicate Valid()
      reads repository
    {
      repository.Valid()
    }

    constructor (repository: Repository<CustomerColumns>)
      ensures this.repository == repository
    {
      this.repository := repository;
    }

    /** getAllCustomers: the requested page of the active customers, in store
        order, each mapped to its DTO. */
    function GetAllCustomers(pageable: PageRequest): (page: Page<Dto<CustomerFields>>)
      reads repository
      requires Valid()
      ensures page.number == pageable.page
      ensures page.totalElements == |repository.Active()|
      ensures page.totalPages == TotalPages(|repository.Active()|, pageable.size)
      ensures page.size == pageable.size
      ensures |page.content| <= pageable.size
      ensures |page.content| ==
                if pageable.page * pageable.size < |repository.Active()|
                then Min(pageable.size, |repository.Active()| - pageable.page * pageable.size)
                else 0
      ensures forall k :: 0 <= k < |page.content| ==>
                pageable.page * pageable.size + k < |repository.ActiveRows()| &&
                page.content[k] == ToCustomerDto(repository.ActiveRows()[pageable.page * pageable.size + k])
    {
      repository.MappedPage(pageable, ToCustomerDto);
      MapPage(repository.FindAllByDeletionTimeIsNull(pageable), ToCustomerDto)
    }

    /** getCustomerById: the customer stored under `id`, soft-deleted or not,
        or CustomerNotFoundException("id", id). */
    function GetCustomerById(id: Id): (r: Result<Dto<CustomerFields>, NotFoundError>)
      reads repository
      requires Valid()
      ensures r.Success? <==> id in repository.rows
      ensures r.Success? ==> r.value.id == id && r.value == ToCustomerDto(repository.rows[id])
      ensures r.Failure? ==> r.error == ResourceNotFound(Customer, "id", IdText(id))
    {
      match repository.FindById(id)
      case Some(e) => Success(ToCustomerDto(e))
      case None => Failure(ResourceNotFound(Customer, "id", IdText(id)))
    }

    /** addCustomer: the caller's id is replaced by a fresh one and the row is
        inserted; the store stamps both timestamps with `now`. */
    method AddCustomer(dto: Dto<CustomerFields>, now: Time) returns (r: Dto<CustomerFields>)
      requires Valid()
      modifies repository
      ensures Valid()
      ensures r.id !in old(repository.rows)
      ensures r == Dto(r.id, now, now, dto.fields)
      ensures repository.rows == old(repository.rows)[r.id := ToCustomerEntity(r)]
      ensures repository.order == old(repository.order) + [r.id]
      ensures |repository.rows| == |old(repository.rows)| + 1
      ensures repository.Active() == old(repository.Active()) + [r.id]
      ensures GetCustomerById(r.id) == Success(r)
    {
      var entity := ToCustomerEntity(dto);
      var id := repository.FreshId();
      entity := entity.(id := id);
      var saved := repository.Save(entity, now);
      ActiveIdsAppend(old(repository.order), old(repository.rows), id, saved);
      r := ToCustomerDto(saved);
    }

    /** updateCustomer, with the id of the request path (CustomerController
        sets it on the DTO): the lookup comes first, so a missing id changes
        nothing; otherwise only the business fields are overwritten. */
    method UpdateCustomer(id: Id, dto: Dto<CustomerFields>, now: Time)
      returns (r: Result<Dto<CustomerFields>, NotFoundError>)
      requires Valid()
      modifies repository
      ensures Valid()
      ensures r.Failure? <==> id !in old(repository.rows)
      ensures r.Failure? ==> r.error == ResourceNotFound(Customer, "id", IdText(id)) && unchanged(repository)
      ensures r.Success? ==>
                var before := old(repository.rows)[id];
                && repository.rows == old(repository.rows)[id := before.(updateTime := now,
                                                             columns := ApplyUpdate(before.columns, dto.fields))]
                && repository.order == old(repository.order)
                && repository.nextId == old(repository.nextId)
                && r.value == ToCustomerDto(repository.rows[id])
                && repository.Active() == old(repository.Active())
    {
      var request := dto.(id := id);
      var found := repository.FindById(request.id);
      if found.None? {
        return Failure(ResourceNotFound(Customer, "id", IdText(request.id)));
      }
      var entity := found.value;
      entity := entity.(columns := ApplyUpdate(entity.columns, request.fields));
      var saved := repository.Save(entity, now);
      ActiveIdsFrame(old(repository.order), old(repository.rows), repository.rows);
      r := Success(ToCustomerDto(saved));
    }

    /** removeCustomer: the row stays in the table with deletionTime set to
        `now` (overwriting an earlier one), so it leaves every listing but is
        still found by id. */
    method RemoveCustomer(id: Id, now: Time) returns (r: Result<Dto<CustomerFields>, NotFoundError>)
      requires Valid()
      modifies repository
      ensures Valid()
      ensures r.Failure? <==> id !in old(repository.rows)
      ensures r.Failure? ==> r.error == ResourceNotFound(Customer, "id", IdText(id)) && unchanged(repository)
      ensures r.Success? ==>
                var before := old(repository.rows)[id];
                && repository.rows == old(repository.rows)[id := before.(updateTime := now,
                                                             deletionTime := Some(now))]
                && repository.order == old(repository.order)
                && repository.nextId == old(repository.nextId)
                && r.value == ToCustomerDto(repository.rows[id])
                && repository.Active() == Without(old(repository.Active()), id)
                && GetCustomerById(id) == r
    {
      var found := repository.FindById(id);
      if found.None? {
        return Failure(ResourceNotFound(Customer, "id", IdText(id)));
      }
      var entity := found.value.(deletionTime := Some(now));
      var saved := repository.Save(entity, now);
      ActiveIdsSoftDelete(old(repository.order), old(repository.rows), id, saved);
      r := Success(ToCustomerDto(saved));
    }
  }
}
