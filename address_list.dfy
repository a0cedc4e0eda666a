/** An `AddressList`: a tail queue of `Address` nodes, as pinned down by
    test/address/mutt_addrlist_free_one.c for `mutt_addrlist_append` and
    `mutt_addrlist_free_one`.

    The queue is a sequence of node references, first to last. A node carries
    its own link field, so it sits in the queue at most once; removal unlinks
    a node by identity, whatever its contents.
 */
module Addresses {

  /** An e-mail address: a display name and a mailbox. */
  class Address {
    var personal: string
    var mailbox: string

    constructor (personal: string, mailbox: string)
      ensures this.personal == personal && this.mailbox == mailbox
    {
      this.personal := personal;
      this.mailbox := mailbox;
    }
  }

  /** No node occurs twice. */
  predicate Distinct(s: seq<Address>) {
    forall i, j :: 0 <= i < j < |s| ==> s[i] != s[j]
  }

  /** The position of the first occurrence of node `a`. */
  function IndexOf(s: seq<Address>, a: Address): (i: nat)
    requires a in s
    ensures i < |s| && s[i] == a
    ensures a !in s[..i]
  {
    if s[0] == a then 0
    else
      var j := IndexOf(s[1..], a);
      assert s[..j + 1] == [s[0]] + s[1..][..j];
      j + 1
  }

  /** In a sequence without repeats, a node's first position is its position. */
  lemma IndexOfDistinct(s: seq<Address>, i: nat)
    requires Distinct(s) && i < |s|
    ensures IndexOf(s, s[i]) == i
  {
    var j := IndexOf(s, s[i]);
    assert forall k :: 0 <= k < j ==> s[..j][k] == s[k];
  }

  /** `s` with its first occurrence of node `a` unlinked; compared by
      identity, never by contents. */
  function Without(s: seq<Address>, a: Address): (r: seq<Address>)
    ensures |r| == if a in s then |s| - 1 else |s|
  {
    if s == [] then []
    else if s[0] == a then s[1..]
    else [s[0]] + Without(s[1..], a)
  }

  /** Unlinking takes away exactly one copy of `a`, if there is one, and
      nothing else. */
  lemma {:induction false} WithoutMultiset(s: seq<Address>, a: Address)
    ensures multiset(Without(s, a)) == multiset(s) - multiset{a}
  {
    if s != [] {
      assert s == [s[0]] + s[1..];
      if s[0] != a {
        WithoutMultiset(s[1..], a);
      }
    }
  }

  /** Unlinking the node at position `i` keeps the nodes before it and shifts
      the nodes after it down by one: the order of the rest is unchanged. */
  lemma {:induction false} WithoutAt(s: seq<Address>, a: Address, i: nat)
    requires i < |s| && s[i] == a && a !in s[..i]
    ensures Without(s, a) == s[..i] + s[i + 1..]
  {
    if i > 0 {
      assert s[0] != a by { assert s[0] == s[..i][0]; }
      assert s[1..][..i - 1] == s[1..i];
      WithoutAt(s[1..], a, i - 1);
      assert s[..i] == [s[0]] + s[1..i];
      assert s[i + 1..] == s[1..][i..];
    }
  }

  /** Unlinking keeps every node other than `a`, including a node whose
      contents equal those of `a`, and adds none. */
  lemma WithoutKeepsOthers(s: seq<Address>, a: Address, b: Address)
    requires b != a
    ensures b in Without(s, a) <==> b in s
  {
    WithoutMultiset(s, a);
    assert multiset(Without(s, a))[b] == multiset(s)[b];
  }

  /** In a queue without repeats, unlinking `a` removes it completely and
      keeps the queue free of repeats. */
  lemma {:induction false} WithoutDistinct(s: seq<Address>, a: Address)
    requires Distinct(s)
    ensures a !in Without(s, a)
    ensures Distinct(Without(s, a))
  {
    if s != [] {
      var t := s[1..];
      assert Distinct(t);
      if s[0] == a {
        assert forall j :: 0 <= j < |t| ==> t[j] == s[j + 1] != s[0];
      } else {
        WithoutDistinct(t, a);
        var w := Without(t, a);
        assert s[0] !in t;
        assert s[0] !in w by { WithoutKeepsOthers(t, a, s[0]); }
        assert Without(s, a) == [s[0]] + w;
      }
    }
  }

  /** The neighbours of an unlinked inner node become adjacent. */
  lemma NeighboursJoin(s: seq<Address>, a: Address, i: nat)
    requires 0 < i < |s| - 1 && s[i] == a && a !in s[..i]
    ensures Without(s, a)[i - 1] == s[i - 1]
    ensures Without(s, a)[i] == s[i + 1]
  {
    WithoutAt(s, a, i);
  }

  /** Unlinking a node just appended at the tail restores the queue. */
  lemma AppendThenWithout(s: seq<Address>, a: Address)
    requires a !in s
    ensures Without(s + [a], a) == s
  {
    assert (s + [a])[..|s|] == s;
    WithoutAt(s + [a], a, |s|);
  }

  /** `struct AddressList`, a tail queue of nodes. */
  class AddressList {
    var nodes: seq<Address>

    /** A node is linked into the queue at most once. */
    ghost predicate Valid()
      reads this
    {
      Distinct(nodes)
    }

    /** `TAILQ_HEAD_INITIALIZER`: an empty queue. */
    constructor ()
      ensures Valid() && nodes == []
    {
      nodes := [];
    }

    /** `TAILQ_FIRST`: the first node, NULL for an empty queue. */
    function First(): (r: Address?)
      reads this
      ensures r == null <==> nodes == []
      ensures r != null ==> r == nodes[0]
    {
      if nodes == [] then null else nodes[0]
    }

    /** `TAILQ_NEXT(a, entries)`: the node after `a`, NULL after the last. */
    function Next(a: Address): (r: Address?)
      reads this
      requires a in nodes
      ensures r == null <==> IndexOf(nodes, a) == |nodes| - 1
      ensures r != null ==> r in nodes && r == nodes[IndexOf(nodes, a) + 1]
    {
      var i := IndexOf(nodes, a);
      if i + 1 < |nodes| then nodes[i + 1] else null
    }

    /** Walking with `Next` from the node at position `i` reaches the node at
        position `i + 1`, and NULL after the last node. */
    lemma NextWalksInOrder(i: nat)
      requires Valid() && i < |nodes|
      ensures Next(nodes[i]) == if i + 1 < |nodes| then nodes[i + 1] else null
    {
      IndexOfDistinct(nodes, i);
    }

    /** `mutt_addrlist_append`: link an unlinked node in at the tail. */
    method Append(a: Address)
      requires Valid() && a !in nodes
      modifies this
      ensures Valid()
      ensures nodes == old(nodes) + [a]
      ensures nodes[|nodes| - 1] == a
    {
      nodes := nodes + [a];
    }

    /** `mutt_addrlist_free_one`: unlink node `a` from queue `al`; either may
        be NULL, which does nothing. A non-null `a` must be linked into `al`. */
    static method FreeOne(al: AddressList?, a: Address?)
      requires al != null ==> al.Valid()
      requires al != null && a != null ==> a in al.nodes
      modifies al
      ensures al != null ==> al.Valid()
      ensures al != null && a == null ==> al.nodes == old(al.nodes)
      ensures al != null && a != null ==> al.nodes == Without(old(al.nodes), a)
    {
      if al == null || a == null {
        return;
      }
      var i := IndexOf(al.nodes, a);
      WithoutAt(al.nodes, a, i);
      WithoutDistinct(al.nodes, a);
      al.nodes := al.nodes[..i] + al.nodes[i + 1..];
    }
  }

  /** The mailboxes of the sample list
      "john@doe.org, test@example.com, John Doe <john@doe.org>, foo@bar.baz,
      Another <john@doe.org>, foo@baz.info". */
  const SampleMailboxes: seq<string> :=
    ["john@doe.org", "test@example.com", "john@doe.org", "foo@bar.baz", "john@doe.org", "foo@baz.info"]

  /** Links a fresh node for `personal <mailbox>` in at the tail. */
  method AppendNew(al: AddressList, personal: string, mailbox: string) returns (b: Address)
    requires al.Valid()
    modifies al
    ensures fresh(b) && b.personal == personal && b.mailbox == mailbox
    ensures al.Valid() && al.nodes == old(al.nodes) + [b]
  {
    b := new Address(personal, mailbox);
    al.Append(b);
  }

  /** Appends the six sample addresses as fresh nodes, as the address parser
      would; the fifth is "Another <john@doe.org>". */
  method AppendSample(al: AddressList) returns (added: seq<Address>)
    requires al.Valid()
    modifies al
    ensures al.Valid() && al.nodes == old(al.nodes) + added
    ensures |added| == 6 && forall i :: 0 <= i < 6 ==> fresh(added[i])
    ensures forall i :: 0 <= i < 6 ==> added[i].mailbox == SampleMailboxes[i]
    ensures added[4].personal == "Another"
  {
    var a1 := AppendNew(al, "", "john@doe.org");
    var a2 := AppendNew(al, "", "test@example.com");
    var a3 := AppendNew(al, "John Doe", "john@doe.org");
    var a4 := AppendNew(al, "", "foo@bar.baz");
    var a5 := AppendNew(al, "Another", "john@doe.org");
    var a6 := AppendNew(al, "", "foo@baz.info");
    added := [a1, a2, a3, a4, a5, a6];
  }

  /** The first two blocks of test_mutt_addrlist_free_one: freeing from a
      NULL list is accepted, and freeing a NULL node from a zeroed (empty)
      list leaves it empty. */
  method FreeOneNullScenario() returns (al: AddressList)
    ensures al.Valid() && al.nodes == []
  {
    var a := new Address("", "");
    AddressList.FreeOne(null, a);
    al := new AddressList();
    AddressList.FreeOne(al, null);
  }

  /** The last block of test_mutt_addrlist_free_one: thirteen nodes (six,
      then a node `a` "Another <john@doe.org>" at the tail, then six more)
      lose exactly `a`; the twelve left keep their order, including the
      earlier node with the same contents as `a`, and the walk ends in NULL. */
  method FreeOneScenario() returns (al: AddressList, a: Address)
    ensures al.Valid() && a !in al.nodes && |al.nodes| == 12
    ensures forall i :: 0 <= i < 12 ==> al.nodes[i].mailbox == (SampleMailboxes + SampleMailboxes)[i]
    ensures al.nodes[4].personal == a.personal && al.nodes[4].mailbox == a.mailbox
    ensures al.First() == al.nodes[0] && al.Next(al.nodes[11]) == null
  {
    al := new AddressList();
    var first := AppendSample(al);
    a := new Address("Another", "john@doe.org");
    al.Append(a);
    assert al.nodes == first + [a];
    var second := AppendSample(al);
    ghost var before := first + [a] + second;
    assert al.nodes == before;
    assert before[..6] == first;
    assert before[7..] == second;
    AddressList.FreeOne(al, a);
    WithoutAt(before, a, 6);
    assert al.nodes == first + second;
    WithoutDistinct(before, a);
    al.NextWalksInOrder(11);
  }
}
