/** The dependency filter of `notify`: the part of a full patch that
    concerns one required service name. */
module Filter {
  import opened Types

  /** The entries of `entries` whose name is `name`, in their original order. */
  function Select(entries: seq<PatchEntry>, name: ServiceName): (r: seq<PatchEntry>)
    ensures |r| <= |entries|
    ensures forall i :: 0 <= i < |r| ==> r[i].name == name
  {
    if entries == [] then []
    else
      var n := |entries| - 1;
      Select(entries[..n], name) + (if entries[n].name == name then [entries[n]] else [])
  }

  /** An entry is selected exactly when it is in the list and carries the name. */
  lemma {:induction false} SelectMembers(entries: seq<PatchEntry>, name: ServiceName, e: PatchEntry)
    ensures e in Select(entries, name) <==> e in entries && e.name == name
  {
    if entries != [] {
      var n := |entries| - 1;
      SelectMembers(entries[..n], name, e);
      assert entries == entries[..n] + [entries[n]];
    }
  }

  /** The patch that a recipient requiring `name` is sent. */
  function FilterFor(full: Patch, name: ServiceName): (p: Patch)
    ensures forall k :: 0 <= k < |p.added| ==> p.added[k].name == name
    ensures forall k :: 0 <= k < |p.remove| ==> p.remove[k].name == name
    ensures |p.added| <= |full.added| && |p.remove| <= |full.remove|
  {
    Patch(Select(full.added, name), Select(full.remove, name))
  }

  /** Selecting from a concatenation selects from each part, in order:
      matched entries keep their relative order. */
  lemma {:induction false} SelectConcat(a: seq<PatchEntry>, b: seq<PatchEntry>, name: ServiceName)
    ensures Select(a + b, name) == Select(a, name) + Select(b, name)
  {
    if b == [] {
      assert a + b == a;
    } else {
      var n := |b| - 1;
      assert (a + b)[..|a + b| - 1] == a + b[..n];
      assert (a + b)[|a + b| - 1] == b[n];
      SelectConcat(a, b[..n], name);
    }
  }

  /** Nothing is dropped: a sequence of entries all named `name` is
      selected whole. */
  lemma {:induction false} SelectAllMatching(entries: seq<PatchEntry>, name: ServiceName)
    requires forall i :: 0 <= i < |entries| ==> entries[i].name == name
    ensures Select(entries, name) == entries
  {
    if entries != [] {
      var n := |entries| - 1;
      SelectAllMatching(entries[..n], name);
      assert entries == entries[..n] + [entries[n]];
    }
  }

  /** Filtering twice by the same name changes nothing. */
  lemma SelectIdempotent(entries: seq<PatchEntry>, name: ServiceName)
    ensures Select(Select(entries, name), name) == Select(entries, name)
  {
    SelectAllMatching(Select(entries, name), name);
  }

  /** The filtered patch is empty exactly when no entry of the full patch
      carries the name. */
  lemma FilterForEmpty(full: Patch, name: ServiceName)
    ensures FilterFor(full, name).IsEmpty() <==>
            forall e :: e in full.added || e in full.remove ==> e.name != name
  {
    var p := FilterFor(full, name);
    if !p.IsEmpty() {
      var e := if p.added != [] then p.added[0] else p.remove[0];
      SelectMembers(full.added, name, e);
      SelectMembers(full.remove, name, e);
    } else {
      forall e | e in full.added || e in full.remove
        ensures e.name != name
      {
        SelectMembers(full.added, name, e);
        SelectMembers(full.remove, name, e);
      }
    }
  }

  /** The loop body of one required service in `notify`: build the
      filtered patch and decide whether to send it. */
  method FilterPatch(full: Patch, name: ServiceName) returns (p: Patch, sendUpdate: bool)
    ensures p == FilterFor(full, name)
    ensures sendUpdate <==> !p.IsEmpty()
  {
    var added: seq<PatchEntry> := [];
    var remove: seq<PatchEntry> := [];
    sendUpdate := false;
    for k := 0 to |full.added|
      invariant added == Select(full.added[..k], name)
      invariant sendUpdate <==> added != []
    {
      assert full.added[..k + 1][..k] == full.added[..k];
      if full.added[k].name == name {
        added := added + [full.added[k]];
        sendUpdate := true;
      }
    }
    assert full.added[..|full.added|] == full.added;
    for k := 0 to |full.remove|
      invariant remove == Select(full.remove[..k], name)
      invariant sendUpdate <==> added != [] || remove != []
    {
      assert full.remove[..k + 1][..k] == full.remove[..k];
      if full.remove[k].name == name {
        remove := remove + [full.remove[k]];
        sendUpdate := true;
      }
    }
    assert full.remove[..|full.remove|] == full.remove;
    p := Patch(added, remove);
  }
}
