/** The bootstrap sync of `sendRequiredServices`: the full-state patch a
    new registration receives about every registered service it requires. */
module Bootstrap {
  import opened Types

  /** The entries contributed by one table entry `e`: its entry once for
      every occurrence of its name in `reqs`. */
  function Matches(e: Registration, reqs: seq<ServiceName>): (r: seq<PatchEntry>)
    ensures |r| == multiset(reqs)[e.serviceName]
    ensures forall k :: 0 <= k < |r| ==> r[k] == EntryOf(e)
  {
    if reqs == [] then []
    else
      var n := |reqs| - 1;
      assert reqs == reqs[..n] + [reqs[n]];
      Matches(e, reqs[..n]) + (if e.serviceName == reqs[n] then [EntryOf(e)] else [])
  }

  /** The `Added` list of the bootstrap patch: for each table entry in
      table order, one entry per matching required name. */
  function CatchUp(table: seq<Registration>, reqs: seq<ServiceName>): (r: seq<PatchEntry>)
    ensures forall k :: 0 <= k < |r| ==> r[k].name in reqs
  {
    if table == [] then []
    else
      var n := |table| - 1;
      var m := Matches(table[n], reqs);
      assert m != [] ==> table[n].serviceName in multiset(reqs);
      CatchUp(table[..n], reqs) + m
  }

  /** The catch-up follows table order: the part for a longer table
      extends the part for its prefix. */
  lemma {:induction false} CatchUpConcat(a: seq<Registration>, b: seq<Registration>, reqs: seq<ServiceName>)
    ensures CatchUp(a + b, reqs) == CatchUp(a, reqs) + CatchUp(b, reqs)
  {
    if b == [] {
      assert a + b == a;
    } else {
      var n := |b| - 1;
      assert (a + b)[..|a + b| - 1] == a + b[..n];
      assert (a + b)[|a + b| - 1] == b[n];
      CatchUpConcat(a, b[..n], reqs);
    }
  }

  /** Every entry of the catch-up announces a registered service whose
      name the new registration requires. */
  lemma {:induction false} CatchUpSound(table: seq<Registration>, reqs: seq<ServiceName>, x: PatchEntry)
    requires x in CatchUp(table, reqs)
    ensures x.name in reqs
    ensures exists i :: 0 <= i < |table| && x == EntryOf(table[i])
  {
    var n := |table| - 1;
    if x in CatchUp(table[..n], reqs) {
      CatchUpSound(table[..n], reqs, x);
      var i :| 0 <= i < n && x == EntryOf(table[..n][i]);
      assert table[..n][i] == table[i];
    } else {
      var m := Matches(table[n], reqs);
      var k :| 0 <= k < |m| && m[k] == x;
      assert table[n].serviceName in multiset(reqs);
    }
  }

  /** Every registered service whose name is required is announced. */
  lemma {:induction false} CatchUpComplete(table: seq<Registration>, reqs: seq<ServiceName>, i: nat)
    requires i < |table| && table[i].serviceName in reqs
    ensures EntryOf(table[i]) in CatchUp(table, reqs)
  {
    var n := |table| - 1;
    if i < n {
      assert table[..n][i] == table[i];
      CatchUpComplete(table[..n], reqs, i);
    } else {
      var m := Matches(table[n], reqs);
      assert |m| > 0;
      assert m[0] == EntryOf(table[i]);
    }
  }

  /** With no required services the catch-up is empty. */
  lemma {:induction false} CatchUpNoRequirements(table: seq<Registration>)
    ensures CatchUp(table, []) == []
  {
    if table != [] {
      CatchUpNoRequirements(table[..|table| - 1]);
    }
  }
}
