/** The registry service: the registration table as an object whose
    methods add and remove registrations, push patches to dependents, and
    answer the HTTP requests of the `/services` route. Outbound posts are
    returned as `Delivery` values; whether each one fails is decided by
    the oracle `fails`. */
module Server {
  import opened Types
  import opened Filter
  import opened Dispatch
  import opened Bootstrap
  import opened Table

  const MethodPost := "POST"
  const MethodDelete := "DELETE"

  const StatusOK := 200
  const StatusBadRequest := 400
  const StatusMethodNotAllowed := 405
  const StatusInternalServerError := 500

  /** A request body: either it could not be read, or it holds text. */
  datatype Body = Unreadable | Payload(text: string)

  /** The one registry instance of the process. */
  class Registry {
    var registrations: seq<Registration>

    constructor ()
      ensures registrations == []
    {
      registrations := [];
    }

    /** Append the registration, send it the bootstrap patch, then notify
        dependents that it was added. The bootstrap failure is the result,
        yet the registration stays and the notification is still sent. */
    method Add(reg: Registration, fails: Delivery -> bool)
      returns (err: bool, bootstrap: Delivery, notified: seq<Delivery>)
      modifies this
      ensures registrations == old(registrations) + [reg]
      ensures bootstrap == Delivery(reg.serviceUpdateURL, Patch(CatchUp(registrations, reg.requiredServices), []))
      ensures err == fails(bootstrap)
      ensures notified == NotifyAttempts(registrations, Patch([EntryOf(reg)], []), fails)
      ensures reg.serviceName in reg.requiredServices ==> EntryOf(reg) in bootstrap.patch.added
    {
      registrations := registrations + [reg];
      err, bootstrap := SendRequiredServices(reg, fails);
      notified := Notify(Patch([EntryOf(reg)], []), fails);
      if reg.serviceName in reg.requiredServices {
        CatchUpComplete(registrations, reg.requiredServices, |registrations| - 1);
      }
    }

    /** Send every registration the part of `full` it depends on; the
        registrations are visited in table order. */
    method Notify(full: Patch, fails: Delivery -> bool) returns (sent: seq<Delivery>)
      ensures sent == NotifyAttempts(registrations, full, fails)
    {
      sent := [];
      for i := 0 to |registrations|
        invariant sent == NotifyAttempts(registrations[..i], full, fails)
      {
        assert registrations[..i + 1][..i] == registrations[..i];
        var mine := NotifyRecipient(registrations[i], full, fails);
        sent := sent + mine;
      }
      assert registrations[..|registrations|] == registrations;
    }

    /** Build the catch-up patch for `reg` from the current table and send
        it to its update URL, whether or not anything matched. */
    method SendRequiredServices(reg: Registration, fails: Delivery -> bool)
      returns (failed: bool, d: Delivery)
      ensures d == Delivery(reg.serviceUpdateURL, Patch(CatchUp(registrations, reg.requiredServices), []))
      ensures failed == fails(d)
    {
      var reqs := reg.requiredServices;
      var added: seq<PatchEntry> := [];
      for i := 0 to |registrations|
        invariant added == CatchUp(registrations[..i], reqs)
      {
        var serviceReg := registrations[i];
        ghost var before := added;
        for k := 0 to |reqs|
          invariant added == before + Matches(serviceReg, reqs[..k])
        {
          assert reqs[..k + 1][..k] == reqs[..k];
          if serviceReg.serviceName == reqs[k] {
            added := added + [EntryOf(serviceReg)];
          }
        }
        assert reqs[..|reqs|] == reqs;
        assert registrations[..i + 1][..i] == registrations[..i];
      }
      assert registrations[..|registrations|] == registrations;
      d := Delivery(reg.serviceUpdateURL, Patch(added, []));
      failed := fails(d);
    }

    /** Remove the first registration whose service URL is `url`, after
        notifying dependents that it is going away; fail with NotFound
        when no registration has that URL. */
    method Remove(url: string, fails: Delivery -> bool) returns (outcome: Outcome, sent: seq<Delivery>)
      modifies this
      ensures FirstMatch(old(registrations), url).None? ==>
                outcome == NotFound(url) && registrations == old(registrations) && sent == []
      ensures FirstMatch(old(registrations), url).Some? ==>
                var i := FirstMatch(old(registrations), url).value;
                outcome == Ok && registrations == Without(old(registrations), i) &&
                sent == NotifyAttempts(old(registrations), Patch([], [EntryOf(old(registrations)[i])]), fails)
    {
      for i := 0 to |registrations|
        invariant forall k :: 0 <= k < i ==> registrations[k].serviceURL != url
      {
        if registrations[i].serviceURL == url {
          sent := Notify(Patch([], [EntryOf(registrations[i])]), fails);
          registrations := registrations[..i] + registrations[i + 1..];
          outcome := Ok;
          return;
        }
      }
      outcome, sent := NotFound(url), [];
    }

    /** The `/services` handler: POST registers a decoded registration,
        DELETE removes the registration whose URL is the body text, and
        any other method is refused. `decode` stands for JSON decoding. */
    method ServeHTTP(httpMethod: string, body: Body, decode: string -> Option<Registration>,
                     fails: Delivery -> bool) returns (status: int, sent: seq<Delivery>)
      modifies this
      ensures httpMethod != MethodPost && httpMethod != MethodDelete ==>
                status == StatusMethodNotAllowed && registrations == old(registrations) && sent == []
      ensures httpMethod == MethodPost && (body.Unreadable? || decode(body.text).None?) ==>
                status == StatusBadRequest && registrations == old(registrations) && sent == []
      ensures httpMethod == MethodPost && body.Payload? && decode(body.text).Some? ==>
                var reg := decode(body.text).value;
                var bootstrap := Delivery(reg.serviceUpdateURL, Patch(CatchUp(registrations, reg.requiredServices), []));
                registrations == old(registrations) + [reg] &&
                status == (if fails(bootstrap) then StatusBadRequest else StatusOK) &&
                sent == [bootstrap] + NotifyAttempts(registrations, Patch([EntryOf(reg)], []), fails)
      ensures httpMethod == MethodDelete && body.Unreadable? ==>
                status == StatusInternalServerError && registrations == old(registrations) && sent == []
      ensures httpMethod == MethodDelete && body.Payload? ==>
                match FirstMatch(old(registrations), body.text)
                case None =>
                  status == StatusBadRequest && registrations == old(registrations) && sent == []
                case Some(i) =>
                  status == StatusOK && registrations == Without(old(registrations), i) &&
                  sent == NotifyAttempts(old(registrations), Patch([], [EntryOf(old(registrations)[i])]), fails)
    {
      if httpMethod == MethodPost {
        var decoded := if body.Payload? then decode(body.text) else None;
        if decoded.None? {
          return StatusBadRequest, [];
        }
        var err, bootstrap, notified := Add(decoded.value, fails);
        sent := [bootstrap] + notified;
        status := if err then StatusBadRequest else StatusOK;
      } else if httpMethod == MethodDelete {
        if body.Unreadable? {
          return StatusInternalServerError, [];
        }
        var outcome;
        outcome, sent := Remove(body.text, fails);
        status := if outcome.NotFound? then StatusBadRequest else StatusOK;
      } else {
        status, sent := StatusMethodNotAllowed, [];
      }
    }
  }
}
