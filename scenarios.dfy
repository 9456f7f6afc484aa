/** Client-side consequences of the service contracts: what a caller of
    the services can conclude from their specifications alone. */
module Scenarios {
  import opened Base
  import opened NotFound
  import opened Repository
  import opened Customers
  import opened Bookings

  /** Of five listed rows, the second and the fourth being soft-deleted,
      the active listing keeps the first, third and fifth, in that order. */
  lemma ActiveOfFive<C>(o: seq<Id>, rows: map<Id, Entity<C>>)
    requires |o| == 5 && forall x :: x in o ==> x in rows
    requires !rows[o[1]].IsActive() && !rows[o[3]].IsActive()
    requires rows[o[0]].IsActive() && rows[o[2]].IsActive() && rows[o[4]].IsActive()
    ensures ActiveIds(o, rows) == [o[0], o[2], o[4]]
  {
    ActiveIdsPrefix(o, 0, rows);
    ActiveIdsPrefix(o, 1, rows);
    ActiveIdsPrefix(o, 2, rows);
    ActiveIdsPrefix(o, 3, rows);
    ActiveIdsPrefix(o, 4, rows);
    assert o[..0] == [] && o[..5] == o;
  }

  /** A listing of three items fits on the first page of twenty. */
  lemma FirstPageOfThree<T>(all: seq<T>)
    requires |all| == 3
    ensures var page := PageOf(all, PageRequest(0, 20));
            page.content == all && page.totalElements == 3 && page.totalPages == 1
  {
    assert TotalPages(3, 20) == 1;
    assert all[0 .. Min(20, 3)] == all;
  }

  /** A store of five rows of which the second and the fourth are
      soft-deleted: the first page of twenty holds exactly the other three,
      in the order the rows were stored, and counts three elements on one
      page. */
  lemma ThreeActiveTwoRemoved(repository: Repository<BookingColumns>)
    requires repository.Valid() && |repository.order| == 5
    requires var o := repository.order;
             && !repository.rows[o[1]].IsActive() && !repository.rows[o[3]].IsActive()
             && repository.rows[o[0]].IsActive() && repository.rows[o[2]].IsActive()
             && repository.rows[o[4]].IsActive()
    ensures var o := repository.order;
            repository.Active() == [o[0], o[2], o[4]]
    ensures var page := repository.FindAllByDeletionTimeIsNull(PageRequest(0, 20));
            && page.totalElements == 3 && page.totalPages == 1 && |page.content| == 3
            && (forall k :: 0 <= k < 3 ==> page.content[k].id == repository.order[2 * k])
  {
    ActiveOfFive(repository.order, repository.rows);
    FirstPageOfThree(repository.ActiveRows());
  }

  /** Removing an already removed customer succeeds again and overwrites its
      deletion time; the row stays findable by id and out of the listing. */
  method RemoveTwice(service: CustomerService, id: Id, t1: Time, t2: Time)
    returns (first: Result<Dto<CustomerFields>, NotFoundError>, second: Result<Dto<CustomerFields>, NotFoundError>)
    requires service.Valid() && id in service.repository.rows
    modifies service.repository
    ensures service.Valid()
    ensures first.Success? && second.Success?
    ensures service.repository.rows.Keys == old(service.repository.rows.Keys)
    ensures id in service.repository.rows && service.repository.rows[id].deletionTime == Some(t2)
    ensures service.GetCustomerById(id) == second
    ensures id !in service.repository.Active()
  {
    first := service.RemoveCustomer(id, t1);
    second := service.RemoveCustomer(id, t2);
  }

  /** A booking whose customer is soft-deleted is still listed and its row
      is untouched: the listing filters on the booking's own deletion time
      only. */
  method RemovingCustomerKeepsBooking(customers: CustomerService, bookings: BookingService,
                                      booking: Id, now: Time)
    returns (r: Result<Dto<CustomerFields>, NotFoundError>)
    requires customers.Valid() && bookings.Valid()
    requires booking in bookings.repository.Active()
    requires bookings.repository.rows[booking].columns.customer.Some?
    modifies customers.repository
    ensures bookings.Valid() && customers.Valid()
    ensures var customer := bookings.repository.rows[booking].columns.customer.value;
            && (r.Success? <==> customer in old(customers.repository.rows))
            && (r.Success? ==> customer in customers.repository.rows &&
                               customer !in customers.repository.Active())
    ensures booking in bookings.repository.Active()
    ensures bookings.repository.rows[booking] == old(bookings.repository.rows[booking])
  {
    r := customers.RemoveCustomer(bookings.repository.rows[booking].columns.customer.value, now);
  }

  /** An update of a missing id leaves the number of rows as it was. */
  method UpdateMissingKeepsCount(service: CustomerService, id: Id, dto: Dto<CustomerFields>, now: Time)
    returns (r: Result<Dto<CustomerFields>, NotFoundError>)
    requires service.Valid() && id !in service.repository.rows
    modifies service.repository
    ensures r == Failure(ResourceNotFound(Customer, "id", IdText(id)))
    ensures |service.repository.rows| == old(|service.repository.rows|)
  {
    r := service.UpdateCustomer(id, dto, now);
  }
}
