/** The registration table: the lookup and splice that `remove` performs
    on the table's sequence of registrations. */
module Table {
  import opened Types

  /** The index of the first registration whose service URL is `url`. */
  function FirstMatch(table: seq<Registration>, url: string): (r: Option<nat>)
    ensures r.None? <==> forall i :: 0 <= i < |table| ==> table[i].serviceURL != url
    ensures r.Some? ==> r.value < |table| && table[r.value].serviceURL == url &&
                        forall k :: 0 <= k < r.value ==> table[k].serviceURL != url
  {
    if table == [] then None
    else if table[0].serviceURL == url then Some(0)
    else
      match FirstMatch(table[1..], url)
      case None => None
      case Some(k) => Some(k + 1)
  }

  /** The table with entry `i` spliced out. */
  function Without(table: seq<Registration>, i: nat): (r: seq<Registration>)
    requires i < |table|
    ensures |r| == |table| - 1
    ensures forall k :: 0 <= k < |r| ==> r[k] == if k < i then table[k] else table[k + 1]
    ensures multiset(r) + multiset{table[i]} == multiset(table)
  {
    assert table == table[..i] + [table[i]] + table[i + 1..];
    table[..i] + table[i + 1..]
  }

  /** Removing the URL of a registration just appended, when no earlier
      registration shares it, gives back the table before the append. */
  lemma RemoveUndoesAdd(table: seq<Registration>, reg: Registration)
    requires forall i :: 0 <= i < |table| ==> table[i].serviceURL != reg.serviceURL
    ensures FirstMatch(table + [reg], reg.serviceURL) == Some(|table|)
    ensures Without(table + [reg], |table|) == table
  {
    var t := table + [reg];
    assert t[|table|] == reg;
    assert forall k :: 0 <= k < |table| ==> t[k] == table[k];
    var r := FirstMatch(t, reg.serviceURL);
    assert r.Some?;
    assert r.value == |table|;
    assert t[..|table|] == table;
  }

  /** With duplicate URLs only the first is removed: one fewer
      registration carries the URL afterwards. */
  lemma {:induction false} RemoveFirstOnly(table: seq<Registration>, url: string)
    requires FirstMatch(table, url).Some?
    ensures var i := FirstMatch(table, url).value;
            UrlCount(Without(table, i), url) + 1 == UrlCount(table, url)
  {
    var i := FirstMatch(table, url).value;
    UrlCountConcat(table[..i], table[i + 1..], url);
    UrlCountConcat(table[..i] + [table[i]], table[i + 1..], url);
    UrlCountConcat(table[..i], [table[i]], url);
    assert table == table[..i] + [table[i]] + table[i + 1..];
    assert [table[i]][..0] == [];
  }

  /** The number of registrations whose service URL is `url`. */
  function UrlCount(table: seq<Registration>, url: string): nat
  {
    if table == [] then 0
    else
      var n := |table| - 1;
      UrlCount(table[..n], url) + (if table[n].serviceURL == url then 1 else 0)
  }

  lemma {:induction false} UrlCountConcat(a: seq<Registration>, b: seq<Registration>, url: string)
    ensures UrlCount(a + b, url) == UrlCount(a, url) + UrlCount(b, url)
  {
    if b == [] {
      assert a + b == a;
    } else {
      var n := |b| - 1;
      assert (a + b)[..|a + b| - 1] == a + b[..n];
      assert (a + b)[|a + b| - 1] == b[n];
      UrlCountConcat(a, b[..n], url);
    }
  }
}
