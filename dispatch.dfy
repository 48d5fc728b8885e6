/** The notification dispatcher of `notify`: for every registration and
    every service it requires, send the filtered patch if it is not empty;
    after a failed send, skip that recipient's remaining required services. */
module Dispatch {
  import opened Types
  import opened Filter

  /** The sends one recipient would receive if none failed: one per
      required name whose filtered patch is not empty, in the order of
      `reqs`. */
  function Relevant(to: string, reqs: seq<ServiceName>, full: Patch): (r: seq<Delivery>)
    ensures |r| <= |reqs|
  {
    if reqs == [] then []
    else
      var n := |reqs| - 1;
      var p := FilterFor(full, reqs[n]);
      Relevant(to, reqs[..n], full) + (if p.IsEmpty() then [] else [Delivery(to, p)])
  }

  /** Every send goes to `to`, carries a non-empty patch, and that patch
      is the filter of the full patch by one required name. */
  lemma {:induction false} RelevantSound(to: string, reqs: seq<ServiceName>, full: Patch, d: Delivery)
    requires d in Relevant(to, reqs, full)
    ensures d.to == to && !d.patch.IsEmpty()
    ensures exists j :: 0 <= j < |reqs| && d.patch == FilterFor(full, reqs[j])
  {
    var n := |reqs| - 1;
    if d in Relevant(to, reqs[..n], full) {
      RelevantSound(to, reqs[..n], full, d);
      var j :| 0 <= j < n && d.patch == FilterFor(full, reqs[..n][j]);
      assert reqs[..n][j] == reqs[j];
    }
  }

  /** Every required name whose filtered patch is not empty gets a send. */
  lemma {:induction false} RelevantComplete(to: string, reqs: seq<ServiceName>, full: Patch, j: nat)
    requires j < |reqs| && !FilterFor(full, reqs[j]).IsEmpty()
    ensures Delivery(to, FilterFor(full, reqs[j])) in Relevant(to, reqs, full)
  {
    var n := |reqs| - 1;
    if j < n {
      assert reqs[..n][j] == reqs[j];
      RelevantComplete(to, reqs[..n], full, j);
    }
  }

  /** The prefix of `ds` that is attempted when sending stops after the
      first failed send. */
  function CutAtFailure(ds: seq<Delivery>, fails: Delivery -> bool): (r: seq<Delivery>)
    ensures |r| <= |ds|
  {
    if ds == [] then []
    else if fails(ds[0]) then [ds[0]]
    else [ds[0]] + CutAtFailure(ds[1..], fails)
  }

  /** What is attempted is a prefix of what would be sent; every attempt
      but the last succeeded; if anything was skipped, the last attempt
      failed; and with no failure everything is sent. */
  lemma {:induction false} CutIsFailurePrefix(ds: seq<Delivery>, fails: Delivery -> bool)
    ensures var r := CutAtFailure(ds, fails);
            r == ds[..|r|] &&
            (forall i :: 0 <= i < |r| - 1 ==> !fails(r[i])) &&
            (|r| < |ds| ==> r != [] && fails(r[|r| - 1])) &&
            (!AnyFails(ds, fails) ==> r == ds)
  {
    if ds != [] && !fails(ds[0]) {
      CutIsFailurePrefix(ds[1..], fails);
      var t := CutAtFailure(ds[1..], fails);
      assert ds == [ds[0]] + ds[1..];
      assert forall i :: 0 <= i < |ds[1..]| ==> ds[1..][i] == ds[i + 1];
      assert !AnyFails(ds, fails) ==> !AnyFails(ds[1..], fails);
    }
  }

  predicate AnyFails(ds: seq<Delivery>, fails: Delivery -> bool)
  {
    exists i :: 0 <= i < |ds| && fails(ds[i])
  }

  /** The sends attempted for one registration (one goroutine of `notify`). */
  function RecipientAttempts(reg: Registration, full: Patch, fails: Delivery -> bool): (r: seq<Delivery>)
    ensures |r| <= |reg.requiredServices|
    ensures forall k :: 0 <= k < |r| ==> r[k].to == reg.serviceUpdateURL && !r[k].patch.IsEmpty()
  {
    var rel := Relevant(reg.serviceUpdateURL, reg.requiredServices, full);
    var r := CutAtFailure(rel, fails);
    assert forall k :: 0 <= k < |r| ==> r[k].to == reg.serviceUpdateURL && !r[k].patch.IsEmpty() by {
      CutIsFailurePrefix(rel, fails);
      forall k | 0 <= k < |r|
        ensures r[k].to == reg.serviceUpdateURL && !r[k].patch.IsEmpty()
      {
        assert r[k] == rel[k];
        RelevantSound(reg.serviceUpdateURL, reg.requiredServices, full, r[k]);
      }
    }
    r
  }

  /** The sends attempted by `notify` over a table, recipient by recipient
      in table order. */
  function NotifyAttempts(table: seq<Registration>, full: Patch, fails: Delivery -> bool): (r: seq<Delivery>)
    ensures forall k :: 0 <= k < |r| ==>
              !r[k].patch.IsEmpty() && exists i :: 0 <= i < |table| && r[k].to == table[i].serviceUpdateURL
  {
    if table == [] then []
    else
      var n := |table| - 1;
      var before := NotifyAttempts(table[..n], full, fails);
      var mine := RecipientAttempts(table[n], full, fails);
      assert forall i :: 0 <= i < n ==> table[..n][i] == table[i];
      assert forall k :: 0 <= k < |before + mine| ==> (before + mine)[k] == if k < |before| then before[k] else mine[k - |before|];
      before + mine
  }

  lemma {:induction false} RelevantConcat(to: string, a: seq<ServiceName>, b: seq<ServiceName>, full: Patch)
    ensures Relevant(to, a + b, full) == Relevant(to, a, full) + Relevant(to, b, full)
  {
    if b == [] {
      assert a + b == a;
    } else {
      var n := |b| - 1;
      assert (a + b)[..|a + b| - 1] == a + b[..n];
      assert (a + b)[|a + b| - 1] == b[n];
      RelevantConcat(to, a, b[..n], full);
    }
  }

  /** Cutting a concatenation: once the first part holds a failure, the
      second part is never attempted. */
  lemma {:induction false} CutConcat(a: seq<Delivery>, b: seq<Delivery>, fails: Delivery -> bool)
    ensures CutAtFailure(a + b, fails) ==
            if AnyFails(a, fails) then CutAtFailure(a, fails) else a + CutAtFailure(b, fails)
  {
    if a == [] {
      assert a + b == b;
      assert !AnyFails(a, fails);
    } else if fails(a[0]) {
      assert (a + b)[0] == a[0];
      assert AnyFails(a, fails);
    } else {
      var t := a[1..];
      assert (a + b)[0] == a[0];
      assert (a + b)[1..] == t + b;
      assert a == [a[0]] + t;
      CutConcat(t, b, fails);
      assert AnyFails(a, fails) <==> AnyFails(t, fails) by {
        if AnyFails(a, fails) {
          var i :| 0 <= i < |a| && fails(a[i]);
          assert t[i - 1] == a[i];
        }
        if AnyFails(t, fails) {
          var i :| 0 <= i < |t| && fails(t[i]);
          assert a[i + 1] == t[i];
        }
      }
    }
  }

  /** Recipients are independent: the sends for a table are those for
      each part of it, and no recipient's failure affects another's. */
  lemma {:induction false} NotifyConcat(a: seq<Registration>, b: seq<Registration>, full: Patch, fails: Delivery -> bool)
    ensures NotifyAttempts(a + b, full, fails) == NotifyAttempts(a, full, fails) + NotifyAttempts(b, full, fails)
  {
    if b == [] {
      assert a + b == a;
    } else {
      var n := |b| - 1;
      assert (a + b)[..|a + b| - 1] == a + b[..n];
      assert (a + b)[|a + b| - 1] == b[n];
      NotifyConcat(a, b[..n], full, fails);
    }
  }

  /** Every patch sent to a recipient is the filter of the full patch by
      one of its required names, is not empty, and so holds only entries
      of that one name. */
  lemma {:induction false} NotifyOnlyRelevant(table: seq<Registration>, full: Patch, fails: Delivery -> bool, d: Delivery)
    requires d in NotifyAttempts(table, full, fails)
    ensures exists i, j :: 0 <= i < |table| && 0 <= j < |table[i].requiredServices| &&
              d.to == table[i].serviceUpdateURL &&
              d.patch == FilterFor(full, table[i].requiredServices[j])
    ensures !d.patch.IsEmpty()
  {
    var n := |table| - 1;
    if d in NotifyAttempts(table[..n], full, fails) {
      NotifyOnlyRelevant(table[..n], full, fails, d);
      var i, j :| 0 <= i < n && 0 <= j < |table[..n][i].requiredServices| &&
                 d.to == table[..n][i].serviceUpdateURL &&
                 d.patch == FilterFor(full, table[..n][i].requiredServices[j]);
      assert table[..n][i] == table[i];
    } else {
      var reg := table[n];
      var rel := Relevant(reg.serviceUpdateURL, reg.requiredServices, full);
      CutIsFailurePrefix(rel, fails);
      assert d in rel[..|CutAtFailure(rel, fails)|];
      RelevantSound(reg.serviceUpdateURL, reg.requiredServices, full, d);
    }
  }

  /** A recipient that requires none of the names in the change is sent
      nothing. */
  lemma RecipientNoDependency(reg: Registration, full: Patch, fails: Delivery -> bool)
    requires forall e :: e in full.added || e in full.remove ==> e.name !in reg.requiredServices
    ensures RecipientAttempts(reg, full, fails) == []
  {
    var rel := Relevant(reg.serviceUpdateURL, reg.requiredServices, full);
    if rel != [] {
      RelevantSound(reg.serviceUpdateURL, reg.requiredServices, full, rel[0]);
      var j :| 0 <= j < |reg.requiredServices| && rel[0].patch == FilterFor(full, reg.requiredServices[j]);
      FilterForEmpty(full, reg.requiredServices[j]);
      assert false;
    }
  }

  /** A change no registration depends on produces no sends at all
      (for instance deregistering a service nobody requires). */
  lemma {:induction false} NotifyNoDependents(table: seq<Registration>, full: Patch, fails: Delivery -> bool)
    requires forall i, e :: 0 <= i < |table| && (e in full.added || e in full.remove) ==>
               e.name !in table[i].requiredServices
    ensures NotifyAttempts(table, full, fails) == []
  {
    if table != [] {
      var n := |table| - 1;
      assert forall i :: 0 <= i < n ==> table[..n][i] == table[i];
      NotifyNoDependents(table[..n], full, fails);
      RecipientNoDependency(table[n], full, fails);
    }
  }

  /** A service that does not require its own name receives no fan-out
      send for its own registration. */
  lemma NoSelfNotification(reg: Registration, fails: Delivery -> bool)
    requires reg.serviceName !in reg.requiredServices
    ensures RecipientAttempts(reg, Patch([EntryOf(reg)], []), fails) == []
  {
    RecipientNoDependency(reg, Patch([EntryOf(reg)], []), fails);
  }

  /** A dependent that requires exactly the newly added provider receives
      exactly one send, whose patch adds just that provider. */
  lemma DependentLearnsOfProvider(dependent: Registration, provider: Registration, fails: Delivery -> bool)
    requires dependent.requiredServices == [provider.serviceName]
    ensures var full := Patch([EntryOf(provider)], []);
            RecipientAttempts(dependent, full, fails) == [Delivery(dependent.serviceUpdateURL, full)]
  {
    var full := Patch([EntryOf(provider)], []);
    var reqs := dependent.requiredServices;
    assert Select([EntryOf(provider)], provider.serviceName) == [EntryOf(provider)] by {
      SelectAllMatching([EntryOf(provider)], provider.serviceName);
    }
    assert reqs[..0] == [];
    assert Relevant(dependent.serviceUpdateURL, reqs, full) == [Delivery(dependent.serviceUpdateURL, full)];
  }

  lemma AnyFailsConcat(a: seq<Delivery>, b: seq<Delivery>, fails: Delivery -> bool)
    ensures AnyFails(a + b, fails) <==> AnyFails(a, fails) || AnyFails(b, fails)
  {
    if AnyFails(a + b, fails) {
      var i :| 0 <= i < |a + b| && fails((a + b)[i]);
      if i >= |a| { assert b[i - |a|] == (a + b)[i]; }
    }
    if AnyFails(b, fails) {
      var i :| 0 <= i < |b| && fails(b[i]);
      assert (a + b)[|a| + i] == b[i];
    }
    if AnyFails(a, fails) {
      var i :| 0 <= i < |a| && fails(a[i]);
      assert (a + b)[i] == a[i];
    }
  }

  /** One more required name adds at most its own send. */
  lemma RelevantStep(to: string, reqs: seq<ServiceName>, j: nat, full: Patch)
    requires j < |reqs|
    ensures var p := FilterFor(full, reqs[j]);
            Relevant(to, reqs[..j + 1], full) ==
            Relevant(to, reqs[..j], full) + (if p.IsEmpty() then [] else [Delivery(to, p)])
  {
    assert reqs[..j + 1][..j] == reqs[..j] && reqs[..j + 1][j] == reqs[j];
  }

  /** Before any failure, one more send is attempted, and it is the
      failure exactly when it fails. */
  lemma CutStep(rel: seq<Delivery>, step: seq<Delivery>, fails: Delivery -> bool)
    requires !AnyFails(rel, fails) && |step| <= 1
    ensures CutAtFailure(rel + step, fails) == rel + step
    ensures AnyFails(rel + step, fails) <==> step != [] && fails(step[0])
  {
    CutIsFailurePrefix(rel, fails);
    CutConcat(rel, step, fails);
    AnyFailsConcat(rel, step, fails);
    assert AnyFails(step, fails) <==> step != [] && fails(step[0]);
    assert step != [] ==> step[1..] == [];
  }

  /** One goroutine of `notify`: the sends to one registration, stopping
      after the first failed send. */
  method NotifyRecipient(reg: Registration, full: Patch, fails: Delivery -> bool) returns (sent: seq<Delivery>)
    ensures sent == RecipientAttempts(reg, full, fails)
  {
    var reqs := reg.requiredServices;
    var to := reg.serviceUpdateURL;
    sent := [];
    var stopped := false;
    var j := 0;
    while j < |reqs| && !stopped
      invariant 0 <= j <= |reqs|
      invariant sent == CutAtFailure(Relevant(to, reqs[..j], full), fails)
      invariant stopped <==> AnyFails(Relevant(to, reqs[..j], full), fails)
    {
      ghost var rel := Relevant(to, reqs[..j], full);
      CutIsFailurePrefix(rel, fails);
      var p, sendUpdate := FilterPatch(full, reqs[j]);
      ghost var step: seq<Delivery> := [];
      if sendUpdate {
        var d := Delivery(to, p);
        step := [d];
        sent := sent + [d];
        if fails(d) {
          stopped := true;
        }
      }
      RelevantStep(to, reqs, j, full);
      CutStep(rel, step, fails);
      j := j + 1;
    }
    if stopped {
      assert reqs == reqs[..j] + reqs[j..];
      RelevantConcat(to, reqs[..j], reqs[j..], full);
      CutConcat(Relevant(to, reqs[..j], full), Relevant(to, reqs[j..], full), fails);
    } else {
      assert reqs[..j] == reqs;
    }
  }
}
