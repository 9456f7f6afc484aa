# Flight booking service: soft-delete CRUD model

This project models the core of the flight booking service. That core has two parts.

- **Six table services.** Each handles one entity: customers, bookings, aircraft, flights, airports or airlines. Each offers five operations:
  - a paged listing of the active rows;
  - a lookup by id;
  - an add under a freshly generated id;
  - an update of a fixed, per-entity set of business fields;
  - a soft delete, which stamps the row with a deletion time instead of removing it.
- **The not-found exception.** Every service throws it for an unknown id. Its message is built from the resource type, the key name and the key value.

Layout:

- `base.dfy` (module `Base`): types shared by every table.
  - Ids and instants.
  - The common entity record (id, creationTime, updateTime, deletionTime) and the DTO record, which has no deletionTime.
  - The generic entity/DTO mapping.
  - Spring Data paging: a page request, a page, the page count, the slice of a listing, and mapping a page.
- `not_found.dfy` (module `NotFound`): the exception message and the six per-entity subclasses. It also holds the decimal string form of an id.
- `repository.dfy` (module `Repository`): the store behind each repository interface.
  - A class whose fields are the table (`map<Id, Entity>`), the ids in insertion order (the order in which the model lists rows), and the id generator.
  - `FindById`, the paged active listing, and `Save` with the store's timestamp rules. `SaveInTransaction` is the form of `Save` seen from a `@Transactional` service, where timestamps are filled only at the flush.
- `customers.dfy`, `bookings.dfy`, `aircraft.dfy`, `flights.dfy`, `airports.dfy`, `airlines.dfy`: one module per service.
  - The entity columns and DTO fields.
  - The mapper functions.
  - The update's field copy (`ApplyUpdate`).
  - A service class holding its repository:
    - the reads (`GetAll*`, `Get*ById`) are functions;
    - `Add*`, `Update*` and `Remove*` are methods that modify the repository.
- `scenarios.dfy` (module `Scenarios`): consequences a client can draw from the contracts. Examples: a listing with two soft-deleted rows, removing twice, and a booking whose customer was removed.

Each service method takes `now` as a parameter; it stands for the `LocalDateTime.now()` of the removal and the timestamps the store sets on save. The update methods take the id separately from the DTO, because each controller writes the path id into the DTO before calling update (for example flight-booking-service/src/main/java/com/tascigorkem/flightbookingservice/controller/customer/CustomerController.java:106).

## Model

| member | source | states |
|---|---|---|
| Base.DtoEntityRoundTrip | flight-booking-service/src/main/java/com/tascigorkem/flightbookingservice/dto/base/BaseDto.java:17-21 | mapping a DTO to an entity and back gives the same DTO whenever the field mappers round-trip |
| Base.TotalPages | flight-booking-service/src/main/java/com/tascigorkem/flightbookingservice/repository/customer/CustomerRepository.java:14 | the page count is the least number of pages of the given size that hold all items; zero pages exactly when there are no items |
| Base.PageOf | flight-booking-service/src/main/java/com/tascigorkem/flightbookingservice/repository/customer/CustomerRepository.java:14 | a page carries the requested number and size and the listing's total count and page count; it holds at most `size` items, item k being item page*size+k of the listing; it is non-empty exactly when the page number is below the page count, and every page before the last is full |
| Base.MapPage | flight-booking-service/src/main/java/com/tascigorkem/flightbookingservice/service/customer/CustomerServiceImpl.java:26 | mapping a page maps each item in place and keeps the number, size, total count and page count |
| Base.PagesFromSuffix | flight-booking-service/src/main/java/com/tascigorkem/flightbookingservice/repository/customer/CustomerRepository.java:14 | the pages from a given page onwards concatenate to the listing from that page's first item |
| Base.PagesCoverListing | flight-booking-service/src/main/java/com/tascigorkem/flightbookingservice/repository/customer/CustomerRepository.java:14 | reading every page in turn gives the whole listing, each item once, in order |
| NotFound.Message | flight-booking-service/src/main/java/com/tascigorkem/flightbookingservice/exception/notfound/base/BaseResourceNotFoundException.java:9-11 | the message is 19 characters longer than its three parts together, begins with the resource type, ends with "] not found." and holds the key value between the bracket and that suffix |
| NotFound.KeyValueOf | flight-booking-service/src/main/java/com/tascigorkem/flightbookingservice/exception/notfound/base/BaseResourceNotFoundException.java:10 | a key value read out of a message rebuilds that very message |
| NotFound.KeyValueOfMessage | flight-booking-service/src/main/java/com/tascigorkem/flightbookingservice/exception/notfound/base/BaseResourceNotFoundException.java:10 | the key value is read back unchanged from the message built with it |
| NotFound.MessageDeterminesKeyValue | flight-booking-service/src/main/java/com/tascigorkem/flightbookingservice/exception/notfound/base/BaseResourceNotFoundException.java:10 | with the resource type and key name fixed, equal messages have equal key values |
| NotFound.Resource.Name | flight-booking-service/src/main/java/com/tascigorkem/flightbookingservice/exception/notfound/CustomerNotFoundException.java:7-9 | each subclass's resource type is a capitalised word without spaces, and it names that one resource |
| NotFound.ResourceNotFound | flight-booking-service/src/main/java/com/tascigorkem/flightbookingservice/exception/notfound/CustomerNotFoundException.java:7-9 | a subclass exception's message begins with the entity name, has the length formula and gives back the key value it was built with |
| NotFound.NotFoundDeterminesResource | flight-booking-service/src/main/java/com/tascigorkem/flightbookingservice/exception/notfound/base/BaseResourceNotFoundException.java:9-11 | two not-found exceptions with the same message come from the same subclass, whatever their key names and values |
| NotFound.IdText | flight-booking-service/src/main/java/com/tascigorkem/flightbookingservice/service/customer/CustomerServiceImpl.java:32 | the string form of an id is a non-empty string of digits |
| NotFound.ParseIdText | flight-booking-service/src/main/java/com/tascigorkem/flightbookingservice/service/customer/CustomerServiceImpl.java:32 | parsing the string form of an id gives the id back |
| NotFound.IdTextInjective | flight-booking-service/src/main/java/com/tascigorkem/flightbookingservice/service/customer/CustomerServiceImpl.java:32 | different ids have different string forms |
| NotFound.NotFoundNamesId | flight-booking-service/src/main/java/com/tascigorkem/flightbookingservice/service/booking/BookingServiceImpl.java:34 | the not-found error for a missing id carries key name "id" and a key value that parses to that id |
| NotFound.NotFoundIdInjective | flight-booking-service/src/main/java/com/tascigorkem/flightbookingservice/service/booking/BookingServiceImpl.java:34 | two missing ids give the same not-found error only if they are the same id |
| Repository.ActiveIds | flight-booking-service/src/main/java/com/tascigorkem/flightbookingservice/repository/customer/CustomerRepository.java:14 | an id is listed exactly when it is in the table and its row has no deletion time; no id is listed twice |
| Repository.ActiveIdsFrame | flight-booking-service/src/main/java/com/tascigorkem/flightbookingservice/repository/customer/CustomerRepository.java:14 | the active listing depends only on which rows are present and have no deletion time, not on their other fields |
| Repository.ActiveIdsSoftDelete | flight-booking-service/src/main/java/com/tascigorkem/flightbookingservice/service/customer/CustomerServiceImpl.java:64-66 | setting a deletion time on a row takes exactly that id out of the active listing and keeps the order of the rest |
| Repository.ActiveIdsPrefix | flight-booking-service/src/main/java/com/tascigorkem/flightbookingservice/repository/customer/CustomerRepository.java:14 | extending a prefix of the store order by its next id lists that id last exactly when its row has no deletion time |
| Repository.WithoutAbsent | flight-booking-service/src/main/java/com/tascigorkem/flightbookingservice/service/customer/CustomerServiceImpl.java:64-66 | taking out of the active listing an id it does not hold leaves the listing as it was |
| Repository.WithoutOnce | flight-booking-service/src/main/java/com/tascigorkem/flightbookingservice/service/customer/CustomerServiceImpl.java:64-66 | taking out of the active listing an id it holds once leaves the ids before and after it, in order |
| Repository.ActiveIdsAppend | flight-booking-service/src/main/java/com/tascigorkem/flightbookingservice/service/customer/CustomerServiceImpl.java:38-39 | inserting a new active row appends its id to the end of the active listing |
| Repository.Repository.constructor | flight-booking-service/src/main/java/com/tascigorkem/flightbookingservice/repository/customer/CustomerRepository.java:12 | a new store is empty and valid |
| Repository.Repository.FindById | flight-booking-service/src/main/java/com/tascigorkem/flightbookingservice/repository/customer/CustomerRepository.java:12 | findById finds a row exactly when its id is a key, soft-deleted or not, and returns that row |
| Repository.Repository.Active | flight-booking-service/src/main/java/com/tascigorkem/flightbookingservice/repository/customer/CustomerRepository.java:14 | the active ids are exactly the keys whose rows have no deletion time, each one once |
| Repository.Repository.ActiveRows | flight-booking-service/src/main/java/com/tascigorkem/flightbookingservice/repository/customer/CustomerRepository.java:14 | the active rows are the rows of the active ids, in that order, none with a deletion time |
| Repository.Repository.FindAllByDeletionTimeIsNull | flight-booking-service/src/main/java/com/tascigorkem/flightbookingservice/repository/customer/CustomerRepository.java:14 | the paged query is the requested page of the active rows, and no row on it has a deletion time |
| Repository.Repository.MappedPage | flight-booking-service/src/main/java/com/tascigorkem/flightbookingservice/repository/customer/CustomerRepository.java:14 | item k of a requested page, mapped by any function, is that function of the active row at position page*size+k |
| Repository.Repository.FreshId | flight-booking-service/src/main/java/com/tascigorkem/flightbookingservice/service/customer/CustomerServiceImpl.java:38 | the generated id is not a key of the table, and the table is untouched |
| Repository.Repository.Save | flight-booking-service/src/main/java/com/tascigorkem/flightbookingservice/entity/base/BaseEntity.java:25-38 | a row with a new id is inserted with both timestamps set to now and its id appended to the order; a row with an existing id replaces the stored one with only updateTime refreshed; nothing else in the table changes |
| Repository.Repository.SaveInTransaction | flight-booking-service/src/main/java/com/tascigorkem/flightbookingservice/service/booking/BookingServiceImpl.java:20 | inside a @Transactional service the store ends up holding exactly the row Save writes, timestamps included, while the entity handed back is the one given, unstamped |
| Customers.ColumnsOf | flight-booking-service/src/main/java/com/tascigorkem/flightbookingservice/service/customer/CustomerMapper.java:19 | the DTO-to-entity copy keeps every customer field and starts every relation list empty |
| Customers.ToCustomerEntity | flight-booking-service/src/main/java/com/tascigorkem/flightbookingservice/service/customer/CustomerMapper.java:15-19 | an entity built from a DTO maps back to that DTO, has no deletion time and no related rows |
| Customers.ToCustomerDto | flight-booking-service/src/main/java/com/tascigorkem/flightbookingservice/service/customer/CustomerMapper.java:15 | the DTO carries the entity's id, creationTime and updateTime, drops its deletion time, and its fields rebuild every column except its booking list; ToCustomerEntity is its inverse on DTOs |
| Customers.ApplyUpdate | flight-booking-service/src/main/java/com/tascigorkem/flightbookingservice/service/customer/CustomerServiceImpl.java:43-57 | the update copies name, surname, email, password, phone, age, city and country from the request and keeps the booking list |
| Customers.CustomerService.GetAllCustomers | flight-booking-service/src/main/java/com/tascigorkem/flightbookingservice/service/customer/CustomerServiceImpl.java:25-27 | the page has the requested number and size, the number of active customer rows as its total and the matching page count; it holds min(size, total - page*size) items when page*size is below the total and none otherwise; item k is the DTO of the active row (one with no deletion time) at position page*size+k of the listing |
| Customers.CustomerService.GetCustomerById | flight-booking-service/src/main/java/com/tascigorkem/flightbookingservice/service/customer/CustomerServiceImpl.java:30-33 | succeeds exactly when the id is a key, soft-deleted rows included, with the mapped row; otherwise fails with CustomerNotFoundException("id", id) |
| Customers.CustomerService.AddCustomer | flight-booking-service/src/main/java/com/tascigorkem/flightbookingservice/service/customer/CustomerServiceImpl.java:36-40 | the row is stored under an id that was not a key, with both timestamps now and the caller's fields; the table grows by one, the id is appended to the active listing and the row is found by id |
| Customers.CustomerService.UpdateCustomer | flight-booking-service/src/main/java/com/tascigorkem/flightbookingservice/service/customer/CustomerServiceImpl.java:43-57 | a missing id fails with the not-found error and leaves the store unchanged; otherwise only that row changes, in name, surname, email, password, phone, age, city and country and updateTime, and the active listing stays as it was |
| Customers.CustomerService.RemoveCustomer | flight-booking-service/src/main/java/com/tascigorkem/flightbookingservice/service/customer/CustomerServiceImpl.java:60-67 | a missing id fails and leaves the store unchanged; otherwise only that row changes, in deletionTime and updateTime (both now, overwriting an earlier deletion), its id leaves the active listing, and it is still found by id |
| Bookings.ColumnsOf | flight-booking-service/src/main/java/com/tascigorkem/flightbookingservice/service/booking/BookingMapper.java:19 | the DTO-to-entity copy keeps every booking field, the customer and flight references included |
| Bookings.ToBookingEntity | flight-booking-service/src/main/java/com/tascigorkem/flightbookingservice/service/booking/BookingMapper.java:15-19 | an entity built from a DTO maps back to that DTO and has no deletion time |
| Bookings.ToBookingDto | flight-booking-service/src/main/java/com/tascigorkem/flightbookingservice/service/booking/BookingMapper.java:15 | the DTO carries the entity's id, creationTime and updateTime, drops its deletion time, and its fields rebuild every column; ToBookingEntity is its inverse on DTOs |
| Bookings.ApplyUpdate | flight-booking-service/src/main/java/com/tascigorkem/flightbookingservice/service/booking/BookingServiceImpl.java:45-56 | the update copies state, paymentDate, paymentAmount, insurance and luggage from the request and keeps the customer and flight references |
| Bookings.BookingService.GetAllBookings | flight-booking-service/src/main/java/com/tascigorkem/flightbookingservice/service/booking/BookingServiceImpl.java:27-29 | the page has the requested number and size, the number of active booking rows as its total and the matching page count; it holds min(size, total - page*size) items when page*size is below the total and none otherwise; item k is the DTO of the active row (one with no deletion time) at position page*size+k of the listing |
| Bookings.BookingService.GetBookingById | flight-booking-service/src/main/java/com/tascigorkem/flightbookingservice/service/booking/BookingServiceImpl.java:32-35 | succeeds exactly when the id is a key, soft-deleted rows included, with the mapped row; otherwise fails with BookingNotFoundException("id", id) |
| Bookings.BookingService.AddBooking | flight-booking-service/src/main/java/com/tascigorkem/flightbookingservice/service/booking/BookingServiceImpl.java:38-42 | the row is stored under an id that was not a key, with both timestamps now and the caller's fields; the table grows by one, the id is appended to the active listing and the row is found by id; the returned DTO, mapped before the transaction's flush, keeps the caller's creationTime and updateTime and differs from the stored row only in them |
| Bookings.BookingService.UpdateBooking | flight-booking-service/src/main/java/com/tascigorkem/flightbookingservice/service/booking/BookingServiceImpl.java:45-56 | a missing id fails with the not-found error and leaves the store unchanged; otherwise only that row changes, in state, paymentDate, paymentAmount, insurance and luggage and updateTime, and the active listing stays as it was; the returned DTO, mapped before the transaction's flush, has the new fields and the previous updateTime |
| Bookings.BookingService.RemoveBooking | flight-booking-service/src/main/java/com/tascigorkem/flightbookingservice/service/booking/BookingServiceImpl.java:59-66 | a missing id fails and leaves the store unchanged; otherwise only that row changes, in deletionTime and updateTime (both now, overwriting an earlier deletion), its id leaves the active listing, and it is still found by id; the returned DTO, mapped before the transaction's flush, is the DTO of the row as it was before the removal |
| Aircrafts.ColumnsOf | flight-booking-service/src/main/java/com/tascigorkem/flightbookingservice/service/flight/AircraftMapper.java:19 | the DTO-to-entity copy keeps every aircraft field and starts every relation list empty |
| Aircrafts.ToAircraftEntity | flight-booking-service/src/main/java/com/tascigorkem/flightbookingservice/service/flight/AircraftMapper.java:15-19 | an entity built from a DTO maps back to that DTO, has no deletion time and no related rows |
| Aircrafts.ToAircraftDto | flight-booking-service/src/main/java/com/tascigorkem/flightbookingservice/service/flight/AircraftMapper.java:15 | the DTO carries the entity's id, creationTime and updateTime, drops its deletion time, and its fields rebuild every column except its flight list; ToAircraftEntity is its inverse on DTOs |
| Aircrafts.ApplyUpdate | flight-booking-service/src/main/java/com/tascigorkem/flightbookingservice/service/flight/AircraftServiceImpl.java:43-53 | the update copies modelName, code, seat and country from the request and keeps manufacturerDate and the flight list |
| Aircrafts.AircraftService.GetAllAircrafts | flight-booking-service/src/main/java/com/tascigorkem/flightbookingservice/service/flight/AircraftServiceImpl.java:25-27 | the page has the requested number and size, the number of active aircraft rows as its total and the matching page count; it holds min(size, total - page*size) items when page*size is below the total and none otherwise; item k is the DTO of the active row (one with no deletion time) at position page*size+k of the listing |
| Aircrafts.AircraftService.GetAircraftById | flight-booking-service/src/main/java/com/tascigorkem/flightbookingservice/service/flight/AircraftServiceImpl.java:30-33 | succeeds exactly when the id is a key, soft-deleted rows included, with the mapped row; otherwise fails with AircraftNotFoundException("id", id) |
| Aircrafts.AircraftService.AddAircraft | flight-booking-service/src/main/java/com/tascigorkem/flightbookingservice/service/flight/AircraftServiceImpl.java:36-40 | the row is stored under an id that was not a key, with both timestamps now and the caller's fields; the table grows by one, the id is appended to the active listing and the row is found by id |
| Aircrafts.AircraftService.UpdateAircraft | flight-booking-service/src/main/java/com/tascigorkem/flightbookingservice/service/flight/AircraftServiceImpl.java:43-53 | a missing id fails with the not-found error and leaves the store unchanged; otherwise only that row changes, in modelName, code, seat and country and updateTime, and the active listing stays as it was |
| Aircrafts.AircraftService.RemoveAircraft | flight-booking-service/src/main/java/com/tascigorkem/flightbookingservice/service/flight/AircraftServiceImpl.java:56-63 | a missing id fails and leaves the store unchanged; otherwise only that row changes, in deletionTime and updateTime (both now, overwriting an earlier deletion), its id leaves the active listing, and it is still found by id |
| Flights.ColumnsOf | flight-booking-service/src/main/java/com/tascigorkem/flightbookingservice/service/flight/FlightMapper.java:19 | the DTO-to-entity copy keeps every flight field and starts every relation list empty |
| Flights.ToFlightEntity | flight-booking-service/src/main/java/com/tascigorkem/flightbookingservice/service/flight/FlightMapper.java:15-19 | an entity built from a DTO maps back to that DTO, has no deletion time and no related rows |
| Flights.ToFlightDto | flight-booking-service/src/main/java/com/tascigorkem/flightbookingservice/service/flight/FlightMapper.java:15 | the DTO carries the entity's id, creationTime and updateTime, drops its deletion time, and its fields rebuild every column except its booking list; ToFlightEntity is its inverse on DTOs |
| Flights.ApplyUpdate | flight-booking-service/src/main/java/com/tascigorkem/flightbookingservice/service/flight/FlightServiceImpl.java:45-54 | the update copies departureDate, arrivalDate and price from the request and keeps the two airport, the aircraft and the airline references and the booking list |
| Flights.FlightService.GetAllFlights | flight-booking-service/src/main/java/com/tascigorkem/flightbookingservice/service/flight/FlightServiceImpl.java:27-29 | the page has the requested number and size, the number of active flight rows as its total and the matching page count; it holds min(size, total - page*size) items when page*size is below the total and none otherwise; item k is the DTO of the active row (one with no deletion time) at position page*size+k of the listing |
| Flights.FlightService.GetFlightById | flight-booking-service/src/main/java/com/tascigorkem/flightbookingservice/service/flight/FlightServiceImpl.java:32-35 | succeeds exactly when the id is a key, soft-deleted rows included, with the mapped row; otherwise fails with FlightNotFoundException("id", id) |
| Flights.FlightService.AddFlight | flight-booking-service/src/main/java/com/tascigorkem/flightbookingservice/service/flight/FlightServiceImpl.java:38-42 | the row is stored under an id that was not a key, with both timestamps now and the caller's fields; the table grows by one, the id is appended to the active listing and the row is found by id; the returned DTO, mapped before the transaction's flush, keeps the caller's creationTime and updateTime and differs from the stored row only in them |
| Flights.FlightService.UpdateFlight | flight-booking-service/src/main/java/com/tascigorkem/flightbookingservice/service/flight/FlightServiceImpl.java:45-54 | a missing id fails with the not-found error and leaves the store unchanged; otherwise only that row changes, in departureDate, arrivalDate and price and updateTime, and the active listing stays as it was; the returned DTO, mapped before the transaction's flush, has the new fields and the previous updateTime |
| Flights.FlightService.RemoveFlight | flight-booking-service/src/main/java/com/tascigorkem/flightbookingservice/service/flight/FlightServiceImpl.java:57-64 | a missing id fails and leaves the store unchanged; otherwise only that row changes, in deletionTime and updateTime (both now, overwriting an earlier deletion), its id leaves the active listing, and it is still found by id; the returned DTO, mapped before the transaction's flush, is the DTO of the row as it was before the removal |
| Airports.ColumnsOf | flight-booking-service/src/main/java/com/tascigorkem/flightbookingservice/service/flight/AirportMapper.java:19 | the DTO-to-entity copy keeps every airport field and starts every relation list empty |
| Airports.ToAirportEntity | flight-booking-service/src/main/java/com/tascigorkem/flightbookingservice/service/flight/AirportMapper.java:15-19 | an entity built from a DTO maps back to that DTO, has no deletion time and no related rows |
| Airports.ToAirportDto | flight-booking-service/src/main/java/com/tascigorkem/flightbookingservice/service/flight/AirportMapper.java:15 | the DTO carries the entity's id, creationTime and updateTime, drops its deletion time, and its fields rebuild every column except its departure and destination flight lists; ToAirportEntity is its inverse on DTOs |
| Airports.ApplyUpdate | flight-booking-service/src/main/java/com/tascigorkem/flightbookingservice/service/flight/AirportServiceImpl.java:43-52 | the update copies name, code and city from the request and keeps the departure and destination flight lists |
| Airports.AirportService.GetAllAirports | flight-booking-service/src/main/java/com/tascigorkem/flightbookingservice/service/flight/AirportServiceImpl.java:25-27 | the page has the requested number and size, the number of active airport rows as its total and the matching page count; it holds min(size, total - page*size) items when page*size is below the total and none otherwise; item k is the DTO of the active row (one with no deletion time) at position page*size+k of the listing |
| Airports.AirportService.GetAirportById | flight-booking-service/src/main/java/com/tascigorkem/flightbookingservice/service/flight/AirportServiceImpl.java:30-33 | succeeds exactly when the id is a key, soft-deleted rows included, with the mapped row; otherwise fails with AirportNotFoundException("id", id) |
| Airports.AirportService.AddAirport | flight-booking-service/src/main/java/com/tascigorkem/flightbookingservice/service/flight/AirportServiceImpl.java:36-40 | the row is stored under an id that was not a key, with both timestamps now and the caller's fields; the table grows by one, the id is appended to the active listing and the row is found by id |
| Airports.AirportService.UpdateAirport | flight-booking-service/src/main/java/com/tascigorkem/flightbookingservice/service/flight/AirportServiceImpl.java:43-52 | a missing id fails with the not-found error and leaves the store unchanged; otherwise only that row changes, in name, code and city and updateTime, and the active listing stays as it was |
| Airports.AirportService.RemoveAirport | flight-booking-service/src/main/java/com/tascigorkem/flightbookingservice/service/flight/AirportServiceImpl.java:55-62 | a missing id fails and leaves the store unchanged; otherwise only that row changes, in deletionTime and updateTime (both now, overwriting an earlier deletion), its id leaves the active listing, and it is still found by id |
| Airlines.ColumnsOf | flight-booking-service/src/main/java/com/tascigorkem/flightbookingservice/service/flight/AirlineMapper.java:19 | the DTO-to-entity copy keeps every airline field and starts every relation list empty |
| Airlines.ToAirlineEntity | flight-booking-service/src/main/java/com/tascigorkem/flightbookingservice/service/flight/AirlineMapper.java:15-19 | an entity built from a DTO maps back to that DTO, has no deletion time and no related rows |
| Airlines.ToAirlineDto | flight-booking-service/src/main/java/com/tascigorkem/flightbookingservice/service/flight/AirlineMapper.java:15 | the DTO carries the entity's id, creationTime and updateTime, drops its deletion time, and its fields rebuild every column except its flight list; ToAirlineEntity is its inverse on DTOs |
| Airlines.ApplyUpdate | flight-booking-service/src/main/java/com/tascigorkem/flightbookingservice/service/flight/AirlineServiceImpl.java:43-51 | the update copies name and country from the request and keeps the flight list |
| Airlines.AirlineService.GetAllAirlines | flight-booking-service/src/main/java/com/tascigorkem/flightbookingservice/service/flight/AirlineServiceImpl.java:25-27 | the page has the requested number and size, the number of active airline rows as its total and the matching page count; it holds min(size, total - page*size) items when page*size is below the total and none otherwise; item k is the DTO of the active row (one with no deletion time) at position page*size+k of the listing |
| Airlines.AirlineService.GetAirlineById | flight-booking-service/src/main/java/com/tascigorkem/flightbookingservice/service/flight/AirlineServiceImpl.java:30-33 | succeeds exactly when the id is a key, soft-deleted rows included, with the mapped row; otherwise fails with AirlineNotFoundException("id", id) |
| Airlines.AirlineService.AddAirline | flight-booking-service/src/main/java/com/tascigorkem/flightbookingservice/service/flight/AirlineServiceImpl.java:36-40 | the row is stored under an id that was not a key, with both timestamps now and the caller's fields; the table grows by one, the id is appended to the active listing and the row is found by id |
| Airlines.AirlineService.UpdateAirline | flight-booking-service/src/main/java/com/tascigorkem/flightbookingservice/service/flight/AirlineServiceImpl.java:43-51 | a missing id fails with the not-found error and leaves the store unchanged; otherwise only that row changes, in name and country and updateTime, and the active listing stays as it was |
| Airlines.AirlineService.RemoveAirline | flight-booking-service/src/main/java/com/tascigorkem/flightbookingservice/service/flight/AirlineServiceImpl.java:54-61 | a missing id fails and leaves the store unchanged; otherwise only that row changes, in deletionTime and updateTime (both now, overwriting an earlier deletion), its id leaves the active listing, and it is still found by id |
| Scenarios.ActiveOfFive | flight-booking-service/src/main/java/com/tascigorkem/flightbookingservice/repository/booking/BookingRepository.java:14 | of five stored rows with the second and fourth soft-deleted, the active listing is the first, third and fifth, in that order |
| Scenarios.FirstPageOfThree | flight-booking-service/src/main/java/com/tascigorkem/flightbookingservice/repository/booking/BookingRepository.java:14 | the first page of twenty of a three-item listing is that listing, with total count three and one page |
| Scenarios.ThreeActiveTwoRemoved | flight-booking-service/src/main/java/com/tascigorkem/flightbookingservice/repository/booking/BookingRepository.java:14 | with five stored bookings whose second and fourth are soft-deleted, findAllByDeletionTimeIsNull's first page of twenty holds the first, third and fifth in the order they were stored, with total count three and one page |
| Scenarios.RemoveTwice | flight-booking-service/src/main/java/com/tascigorkem/flightbookingservice/service/customer/CustomerServiceImpl.java:60-67 | removing a customer twice succeeds both times, the second deletion time wins, the row stays in the table and is still found by id |
| Scenarios.RemovingCustomerKeepsBooking | flight-booking-service/src/main/java/com/tascigorkem/flightbookingservice/service/booking/BookingServiceImpl.java:27-29 | soft-deleting a booking's customer leaves that booking in the active booking listing and its stored row unchanged |
| Scenarios.UpdateMissingKeepsCount | flight-booking-service/src/main/java/com/tascigorkem/flightbookingservice/service/customer/CustomerServiceImpl.java:44-45 | an update of a missing id fails with the not-found error and the number of rows stays the same |

## Left out

- **Ids.** `UUID.randomUUID()` is modelled as a counter in the store that yields an id no row has. The id's string form in not-found messages is decimal rather than the UUID's hexadecimal form. The properties used are that it is a function of the id and that it can be parsed back.
- **One instant per operation.** One `now` per service call stands for both the code's `LocalDateTime.now()` and the instant Hibernate stamps on save. The model does not capture the two instants differing slightly.
- **Value types.** Java `short`, `BigDecimal` and `LocalDateTime` business values are modelled as `int`, and strings as `string`. The code does no arithmetic on them.
- **Relations as ids.** Nested DTOs and JPA associations (a booking's customer and flight; a flight's airports, aircraft and airline) are modelled as ids. JPA `mappedBy` lists are kept as stored id lists that the services never touch.
  - The model does not derive them from the owning side.
  - It does not check that a referenced id exists when a row is added.
  - A nested DTO in the source carries the related row's own fields: a `BookingDto` holds a whole `CustomerDto` (flight-booking-service/src/main/java/com/tascigorkem/flightbookingservice/dto/booking/BookingDto.java:38), whose updateTime and deletion state change when that customer is updated or removed. The model's booking DTO holds only the customer's id, so it cannot show that change. `Scenarios.RemovingCustomerKeepsBooking` therefore states that the booking's stored row is unchanged, not that its DTO is.
- **Mapper details.** MapStruct's generated mappers are modelled as explicit field copies. `List` variants of the mappers are not modelled; no core operation uses them.
- **Framework behaviour not modelled:** JPA cascades, `orphanRemoval` and lazy fetching (no operation physically deletes a row, so cascades never fire through the services); rollback and isolation under `@Transactional` (only its flush timing is modelled, see `Repository.Repository.SaveInTransaction`); Bean Validation; the HTTP controllers and HATEOAS links; Kafka, the email service and template rendering.
- **The duplicate exception class.** The second `BaseResourceNotFoundException` outside the `base` package is not modelled; no subclass extends it.
- **Airline country.** `AirlineEntity` declares its column as `county` (flight-booking-service/src/main/java/com/tascigorkem/flightbookingservice/entity/flight/AirlineEntity.java:26-27). The airline service sets `country` (flight-booking-service/src/main/java/com/tascigorkem/flightbookingservice/service/flight/AirlineServiceImpl.java:48), and so do the DTO and the tests. The model follows the service and names the column `country`.
- **Repeated removal.** The code sets the deletion time again when it removes a row that is already removed, so the later instant replaces the earlier one; it does not keep the first deletion time. The model follows the code (see `Scenarios.RemoveTwice`).
- **Listing order.** The listing query `findAllByDeletionTimeIsNull` has no ORDER BY, and the controllers pass the client's `Pageable`, sort included, straight to the service (flight-booking-service/src/main/java/com/tascigorkem/flightbookingservice/controller/customer/CustomerController.java:58). The model lists active rows in insertion order and ignores any requested sort. Facts about which rows the whole listing holds, and how many, do not depend on this choice. Facts about positions do, and hold for the model's one fixed order only: which active rows land on page k, the item-k clause of `Base.PageOf` and of every `GetAll*`, the claim that reading every page in turn gives the whole listing with each item once (`Base.PagesFromSuffix`, `Base.PagesCoverListing`; in the source each page is a separate LIMIT/OFFSET query with no ORDER BY), the id an add appends last, the order kept by a removal, and `Scenarios.ThreeActiveTwoRemoved`.
- **Dirty checking.** Hibernate's `@UpdateTimestamp` (flight-booking-service/src/main/java/com/tascigorkem/flightbookingservice/entity/base/BaseEntity.java:33-35) refreshes updateTime only when a flush finds a changed row. `Repository.Repository.Save` and the `Update*` methods refresh it on every save, even one that changes no column. The model does not capture an update that changes nothing and leaves updateTime as it was.
- **Other sessions.** Concurrent access and transaction isolation are not modelled; each method is one atomic step on the store.
