/** Value types shared by the registry: registrations, patches and the
    outbound deliveries that stand for HTTP posts of a patch. */
module Types {

  datatype Option<+T> = None | Some(value: T)

  /** A service identifier (the source's `ServiceName`, a string type). */
  type ServiceName = string

  /** One live service: its name and address, the services it depends on,
      and the address at which it accepts patches. */
  datatype Registration = Registration(
    serviceName: ServiceName,
    serviceURL: string,
    requiredServices: seq<ServiceName>,
    serviceUpdateURL: string)

  datatype PatchEntry = PatchEntry(name: ServiceName, url: string)

  /** A topology delta. The source names the second list `Remove`. */
  datatype Patch = Patch(added: seq<PatchEntry>, remove: seq<PatchEntry>)
  {
    predicate IsEmpty() { added == [] && remove == [] }
  }

  /** One attempted send of `patch` to the address `to`. Whether the
      send failed is decided by an oracle `fails: Delivery -> bool`,
      standing for JSON marshalling and the HTTP post. */
  datatype Delivery = Delivery(to: string, patch: Patch)

  /** The result of deregistration: success or "Service at URL ... not found". */
  datatype Outcome = Ok | NotFound(url: string)

  /** The entry that announces registration `r` to others. */
  function EntryOf(r: Registration): PatchEntry
  {
    PatchEntry(r.serviceName, r.serviceURL)
  }
}
