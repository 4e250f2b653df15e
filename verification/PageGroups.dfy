/** The index of page groups in lib/asan/asan_allocator.cc: sorted when asked, searched by halving.

page_groups_ holds the addresses of the PageGroup records; a record lies inside the pages it describes,
above the chunks. */
module PageGroups {
  import opened Options
  import opened SortArray
  import AsanLayout

  type Group = AsanLayout.Group

  predicate InRange(g: Group, addr: nat) { g.beg <= addr < g.end }

  /** A record lies in its own pages, and the pages of two groups do not meet. */
  ghost predicate GroupsOk(groups: seq<Group>)
  {
    && (forall i :: 0 <= i < |groups| ==> groups[i].beg <= groups[i].record < groups[i].end)
    && (forall i, j :: 0 <= i < j < |groups| ==> Disjoint(groups[i], groups[j]))
  }

  predicate Disjoint(g: Group, h: Group) { g.end <= h.beg || h.end <= g.beg }

  /** The groups of a heap qualify, and no two share a record. */
  lemma {:induction false} HeapGroups(groups: seq<Group>, limit: nat)
    requires AsanLayout.GroupsOk(groups, limit)
    ensures GroupsOk(groups)
    ensures forall i, j :: 0 <= i < j < |groups| ==> groups[i].record != groups[j].record
  {
    forall i, j | 0 <= i < j < |groups| ensures Disjoint(groups[i], groups[j]) && groups[i].record != groups[j].record {
      assert AsanLayout.GroupOk(groups[i]) && AsanLayout.GroupOk(groups[j]);
    }
  }

  lemma {:induction false} OneGroup(groups: seq<Group>, i: nat, j: nat, addr: nat)
    requires GroupsOk(groups) && i < |groups| && j < |groups|
    requires InRange(groups[i], addr) && InRange(groups[j], addr)
    ensures i == j
  {
  }

  /** The answer of a scan of all groups: the one around addr, if addr is not above its record. */
  function Scan(groups: seq<Group>, addr: nat): Option<Group>
  {
    if groups == [] then None
    else
      var g := groups[|groups| - 1];
      if InRange(g, addr) && addr <= g.record then Some(g) else Scan(groups[..|groups| - 1], addr)
  }

  lemma {:induction false} ScanMeaning(groups: seq<Group>, addr: nat)
    ensures var r := Scan(groups, addr);
      if r.Some? then r.value in groups && InRange(r.value, addr) && addr <= r.value.record
      else forall g :: g in groups ==> !(InRange(g, addr) && addr <= g.record)
  {
    if groups != [] {
      ScanMeaning(groups[..|groups| - 1], addr);
      assert groups == groups[..|groups| - 1] + [groups[|groups| - 1]];
    }
  }

  lemma {:induction false} ScanUnique(groups: seq<Group>, addr: nat, g: Group)
    requires GroupsOk(groups) && g in groups && InRange(g, addr) && addr <= g.record
    ensures Scan(groups, addr) == Some(g)
  {
    ScanMeaning(groups, addr);
    var r := Scan(groups, addr);
    assert r.Some?;
    var i :| 0 <= i < |groups| && groups[i] == g;
    var j :| 0 <= j < |groups| && groups[j] == r.value;
    OneGroup(groups, i, j, addr);
  }

  /** The record addresses, in the order the groups were added. */
  function Records(groups: seq<Group>): (r: seq<nat>)
    ensures |r| == |groups| && forall i :: 0 <= i < |r| ==> r[i] == groups[i].record
  {
    seq(|groups|, i requires 0 <= i < |groups| => groups[i].record)
  }

  /** What is read through a record's address. */
  function RecordAt(memory: map<nat, Group>, p: nat): Group
  {
    if p in memory then memory[p] else AsanLayout.Group(0, 0, 0, 0, 0)
  }

  class PageGroupIndex {
    const pageGroups: array<nat>
    var n: nat          // n_page_groups_
    var sorted: nat     // n_sorted_page_groups_
    var memory: map<nat, Group>  // the records, by address
    ghost var groups: seq<Group>  // in the order they were added

    ghost predicate Valid()
      reads this, pageGroups
    {
      && n <= pageGroups.Length && sorted <= n && |groups| == n
      && GroupsOk(groups)
      && (forall g :: g in groups ==> g.record in memory && memory[g.record] == g)
      && (forall p :: p in memory ==> memory[p] in groups && memory[p].record == p)
      && multiset(pageGroups[..n]) == multiset(Records(groups))
      && (sorted == n ==> Sorted(pageGroups[..n], 0, n))
    }

    /** CHECK(idx < ARRAY_SIZE(page_groups_)): the index has room. */
    constructor (capacity: nat)
      ensures Valid() && fresh(pageGroups) && pageGroups.Length == capacity && groups == []
    {
      pageGroups := new nat[capacity];
      n, sorted := 0, 0;
      memory := map[];
      groups := [];
      new;
      assert pageGroups[..0] == [] && Records(groups) == [];
    }

    /** The end of GetNewChunks(): lines 553-563. */
    method Add(g: Group)
      requires Valid() && n < pageGroups.Length && GroupsOk(groups + [g])
      modifies this, pageGroups
      ensures Valid() && groups == old(groups) + [g]
    {
      AddRecord(groups, g, pageGroups[..n]);
      NewRecord(groups, g);
      memory := memory[g.record := g];
      pageGroups[n] := g.record;
      assert pageGroups[..n + 1] == old(pageGroups[..n]) + [g.record];
      n := n + 1;
      groups := groups + [g];
    }

    /** FindPageGroupUnlocked() (lines 423-451): halving gives the answer of a scan. */
    method FindPageGroup(addr: nat) returns (r: Option<Group>)
      requires Valid()
      modifies this`sorted, pageGroups
      ensures Valid() && r == Scan(groups, addr)
    {
      // groups have come since the last search
      if sorted < n {
        ghost var s := pageGroups[..];
        SortArray.SortArray(pageGroups, n);
        PrefixPermutes(s, pageGroups[..], n);
        sorted := n;
      }
      ghost var records := pageGroups[..n];
      // records below beg are below addr, those from end on are not
      var beg, end := 0, n;
      while beg < end
        invariant 0 <= beg <= end <= n && pageGroups[..n] == records
        invariant forall i :: 0 <= i < beg ==> records[i] < addr
        invariant forall i :: end <= i < n ==> addr <= records[i]
      {
        var med := (beg + end) / 2;
        var g := pageGroups[med];
        assert records[med] == g;
        if addr > g {
          beg := med + 1;
        } else {
          end := med;
        }
      }
      if beg >= n {
        SearchMisses(groups, records, addr);
        return None;
      }
      var g := RecordAt(memory, pageGroups[beg]);
      SearchFinds(groups, records, memory, addr, beg);
      return if InRange(g, addr) then Some(g) else None;
    }
  }

  lemma {:induction false} NewRecord(groups: seq<Group>, g: Group)
    requires GroupsOk(groups + [g])
    ensures forall h :: h in groups ==> h.record != g.record
  {
    forall h | h in groups ensures h.record != g.record {
      var i :| 0 <= i < |groups| && groups[i] == h;
      assert (groups + [g])[i] == h && (groups + [g])[|groups|] == g;
    }
  }

  lemma {:induction false} AddRecord(groups: seq<Group>, g: Group, records: seq<nat>)
    requires multiset(records) == multiset(Records(groups))
    ensures multiset(records + [g.record]) == multiset(Records(groups + [g]))
  {
    assert Records(groups + [g]) == Records(groups) + [g.record];
  }

  /** A permutation that leaves the tail alone permutes the first part. */
  lemma {:induction false} PrefixPermutes(s: seq<nat>, t: seq<nat>, n: nat)
    requires n <= |s| && Permutation(s, t) && s[n..] == t[n..]
    ensures multiset(s[..n]) == multiset(t[..n])
    ensures Sorted(t, 0, n) ==> Sorted(t[..n], 0, n)
  {
    assert s == s[..n] + s[n..] && t == t[..n] + t[n..];
    assert multiset(s) == multiset(s[..n]) + multiset(s[n..]);
    assert multiset(t) == multiset(t[..n]) + multiset(t[n..]);
    var a, b := multiset(s[..n]), multiset(t[..n]);
    assert a == (a + multiset(s[n..])) - multiset(s[n..]);
    assert b == (b + multiset(t[n..])) - multiset(t[n..]);
  }

  /** Every entry of the index is the record of a group, and every record is an entry. */
  lemma {:induction false} EntryOfGroup(groups: seq<Group>, records: seq<nat>, p: nat)
    requires multiset(records) == multiset(Records(groups))
    ensures p in records <==> exists i :: 0 <= i < |groups| && groups[i].record == p
  {
    assert p in records <==> p in multiset(records);
    assert p in Records(groups) <==> p in multiset(Records(groups));
    if p in records {
      assert p in Records(groups);
      var i :| 0 <= i < |Records(groups)| && Records(groups)[i] == p;
      assert groups[i].record == p;
    }
    if i :| 0 <= i < |groups| && groups[i].record == p {
      assert Records(groups)[i] == p;
    }
  }

  lemma {:induction false} SearchMisses(groups: seq<Group>, records: seq<nat>, addr: nat)
    requires multiset(records) == multiset(Records(groups))
    requires forall i :: 0 <= i < |records| ==> records[i] < addr
    ensures Scan(groups, addr) == None
  {
    ScanMeaning(groups, addr);
    forall g | g in groups ensures g.record < addr {
      EntryOfGroup(groups, records, g.record);
    }
  }

  /** The first record that is not below addr decides. */
  lemma {:induction false} SearchFinds(groups: seq<Group>, records: seq<nat>, memory: map<nat, Group>, addr: nat, k: nat)
    requires GroupsOk(groups) && multiset(records) == multiset(Records(groups)) && Sorted(records, 0, |records|)
    requires forall g :: g in groups ==> g.record in memory && memory[g.record] == g
    requires k < |records| && addr <= records[k] && forall i :: 0 <= i < k ==> records[i] < addr
    ensures var g := RecordAt(memory, records[k]);
      Scan(groups, addr) == if InRange(g, addr) then Some(g) else None
  {
    EntryOfGroup(groups, records, records[k]);
    assert records[k] in records;
    var i :| 0 <= i < |groups| && groups[i].record == records[k];
    var g := groups[i];
    assert g in groups;
    if InRange(g, addr) {
      ScanUnique(groups, addr, g);
    } else {
      ScanMeaning(groups, addr);
      var r := Scan(groups, addr);
      if r.Some? {
        NoneBetween(groups, records, addr, k, g, r.value);
      }
    }
  }

  /** A group around addr, with its record at or above addr, would have the first such record. */
  lemma {:induction false} NoneBetween(groups: seq<Group>, records: seq<nat>, addr: nat, k: nat, g: Group, h: Group)
    requires GroupsOk(groups) && multiset(records) == multiset(Records(groups)) && Sorted(records, 0, |records|)
    requires k < |records| && addr <= records[k] && forall i :: 0 <= i < k ==> records[i] < addr
    requires g in groups && g.record == records[k] && h in groups && InRange(h, addr) && addr <= h.record
    ensures g == h
  {
    var a :| 0 <= a < |groups| && groups[a] == g;
    var b :| 0 <= b < |groups| && groups[b] == h;
    EntryOfGroup(groups, records, h.record);
    var j :| 0 <= j < |records| && records[j] == h.record;
    assert k <= j;
    assert g.record <= h.record;
    OneGroup(groups, a, b, g.record);
  }
}
