/** The ticket record, the validated form fields, and the two static lookup catalogs. */
module Tickets {

  datatype Option<T> = None | Some(value: T)

  /** The three priorities a ticket can carry (the form's priority select). */
  datatype Priority = Low | Medium | High

  /** A stored ticket; `statusId` and `authorId` refer to the catalogs below. */
  datatype Ticket = Ticket(
    id: nat,
    subject: string,
    statusId: nat,
    priority: Priority,
    message: string,
    authorId: nat)

  /** The fields of a ticket once the form has been accepted (everything but the id). */
  datatype Fields = Fields(
    subject: string,
    statusId: nat,
    priority: Priority,
    message: string,
    authorId: nat)

  /** A raw form submission: an unselected select is `None`. */
  datatype FormData = FormData(
    subject: string,
    status: Option<nat>,
    priority: Option<Priority>,
    message: string,
    author: Option<nat>)

  /** One entry of a lookup catalog. */
  datatype CatalogEntry = CatalogEntry(id: nat, name: string)

  const Users: seq<CatalogEntry> := [
    CatalogEntry(1, "Ivan Petrenko"),
    CatalogEntry(2, "Olena Koval"),
    CatalogEntry(3, "Pavlo Melnyk")
  ]

  const Statuses: seq<CatalogEntry> := [
    CatalogEntry(1, "Open"),
    CatalogEntry(2, "In Progress"),
    CatalogEntry(3, "Closed")
  ]

  /** The ticket built from accepted fields under a given id. */
  function MakeTicket(id: nat, f: Fields): Ticket {
    Ticket(id, f.subject, f.statusId, f.priority, f.message, f.authorId)
  }
}
