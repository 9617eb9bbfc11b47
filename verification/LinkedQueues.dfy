/** An intrusive doubly linked queue: the links are part of the elements, and inserting changes only
  * pointers.  `links` is the sequence the pointers stand for.
  */
module LinkedQueues {

  class Link {
    var prev: Link?
    var next: Link?

    constructor ()
      ensures prev == null && next == null
    {
      prev, next := null, null;
    }
  }

  ghost function Before(links: seq<Link>, i: nat): Link?
    requires i <= |links|
  {
    if i == 0 then null else links[i - 1]
  }

  ghost function At(links: seq<Link>, i: nat): Link? { if i < |links| then links[i] else null }

  ghost predicate Distinct(links: seq<Link>) { forall i, j :: 0 <= i < j < |links| ==> links[i] != links[j] }

  /** A list whose first element is links[0]: the pointers agree with the sequence in both directions. */
  ghost predicate Linked(links: seq<Link>)
    reads links
  {
    && Distinct(links)
    && (forall i :: 0 <= i < |links| ==> links[i].prev == Before(links, i))
    && (forall i :: 0 <= i < |links| ==> links[i].next == At(links, i + 1))
  }

  ghost function First(links: seq<Link>): Link? { if links == [] then null else links[0] }

  ghost function Last(links: seq<Link>): Link? { if links == [] then null else links[|links| - 1] }

  /** The sequence with a new link before the sibling; at the end without one. */
  ghost function InsertedBefore(links: seq<Link>, sibling: Link?, link: Link): seq<Link> {
    if links == [] then [link]
    else if links[0] == sibling then [link] + links
    else [links[0]] + InsertedBefore(links[1..], sibling, link)
  }

  ghost function Without(links: seq<Link>, link: Link): seq<Link> {
    if links == [] then [] else if links[0] == link then links[1..] else [links[0]] + Without(links[1..], link)
  }

  lemma {:induction false} InsertedAt(links: seq<Link>, sibling: Link?, link: Link, i: nat)
    requires i <= |links| && (i < |links| ==> links[i] == sibling)
    requires forall j :: 0 <= j < i ==> links[j] != sibling
    ensures InsertedBefore(links, sibling, link) == links[..i] + [link] + links[i..]
  {
    if links != [] && i > 0 {
      InsertedAt(links[1..], sibling, link, i - 1);
      assert links[..i] == [links[0]] + links[1..][..i - 1] && links[i..] == links[1..][i - 1..];
    }
  }

  lemma {:induction false} WithoutAt(links: seq<Link>, link: Link, i: nat)
    requires i < |links| && links[i] == link
    requires forall j :: 0 <= j < i ==> links[j] != link
    ensures Without(links, link) == links[..i] + links[i + 1..]
  {
    if i > 0 {
      WithoutAt(links[1..], link, i - 1);
      assert links[..i] == [links[0]] + links[1..][..i - 1] && links[i + 1..] == links[1..][i..];
    }
  }

  /** Where a member stands first. */
  ghost function FirstIndex(links: seq<Link>, link: Link): (i: nat)
    requires link in links
    ensures i < |links| && links[i] == link && forall j :: 0 <= j < i ==> links[j] != link
  {
    if links[0] == link then 0 else 1 + FirstIndex(links[1..], link)
  }

  /** Taking the inserted link out again gives the sequence back. */
  lemma {:induction false} InsertThenRemove(links: seq<Link>, sibling: Link?, link: Link)
    requires link !in links
    ensures Without(InsertedBefore(links, sibling, link), link) == links
  {
    if links != [] && links[0] != sibling {
      InsertThenRemove(links[1..], sibling, link);
      assert InsertedBefore(links, sibling, link)[1..] == InsertedBefore(links[1..], sibling, link);
    }
  }

  lemma InsertedAtEnds(links: seq<Link>, link: Link)
    ensures links[..0] + [link] + links[0..] == [link] + links
    ensures links[..|links|] + [link] + links[|links|..] == links + [link]
  {}

  lemma OthersDiffer(links: seq<Link>, i: nat)
    requires Distinct(links) && i < |links|
    ensures forall k :: 0 <= k < |links| && k != i ==> links[k] != links[i]
  {}

  lemma DistinctAfterInsert(links: seq<Link>, link: Link, i: nat)
    ensures i <= |links| && link !in links && Distinct(links) ==> Distinct(links[..i] + [link] + links[i..])
  {}

  lemma DistinctAfterRemove(links: seq<Link>, i: nat)
    ensures i < |links| && Distinct(links) ==> Distinct(links[..i] + links[i + 1..])
  {}

  /** Where the pointers around position i go to and from a new link, and all others are as they were. */
  lemma LinkedAfterInsert(links: seq<Link>, link: Link, i: nat)
    requires i <= |links| && link !in links && Distinct(links)
    requires link.prev == Before(links, i) && link.next == At(links, i)
    requires i < |links| ==> links[i].prev == link
    requires forall k :: 0 <= k < |links| && k != i ==> links[k].prev == Before(links, k)
    requires i > 0 ==> links[i - 1].next == link
    requires forall k :: 0 <= k < |links| && k != i - 1 ==> links[k].next == At(links, k + 1)
    ensures Linked(links[..i] + [link] + links[i..])
  {
    DistinctAfterInsert(links, link, i);
    hide Distinct;
    var after := links[..i] + [link] + links[i..];
    forall k | 0 <= k < |after|
      ensures after[k].prev == Before(after, k) && after[k].next == At(after, k + 1)
    {
      if k < i {
        assert after[k] == links[k];
      } else if k > i {
        assert after[k] == links[k - 1];
      }
    }
  }

  /** Where the pointers around position i pass it by. */
  lemma LinkedAfterRemove(links: seq<Link>, i: nat)
    requires i < |links| && Distinct(links)
    requires i + 1 < |links| ==> links[i + 1].prev == Before(links, i)
    requires forall k :: 0 <= k < |links| && k != i && k != i + 1 ==> links[k].prev == Before(links, k)
    requires i > 0 ==> links[i - 1].next == At(links, i + 1)
    requires forall k :: 0 <= k < |links| && k != i && k != i - 1 ==> links[k].next == At(links, k + 1)
    ensures Linked(links[..i] + links[i + 1..])
  {
    DistinctAfterRemove(links, i);
    hide Distinct;
    var after := links[..i] + links[i + 1..];
    forall k | 0 <= k < i
      ensures after[k].prev == Before(after, k) && after[k].next == At(after, k + 1)
    {
      assert after[k] == links[k];
    }
    forall k | i <= k < |after|
      ensures after[k].prev == Before(after, k) && after[k].next == At(after, k + 1)
    {
      assert after[k] == links[k + 1];
    }
  }

  /** The new head, without the link; its own pointers are cleared. */
  method ListRemoveLink(list: Link, link: Link, ghost links: seq<Link>) returns (head: Link?)
    requires Linked(links) && links != [] && list == links[0] && link in links
    modifies links
    ensures Linked(Without(links, link)) && head == First(Without(links, link))
    ensures link.prev == null && link.next == null
  {
    ghost var i := FirstIndex(links, link);
    WithoutAt(links, link, i);
    OthersDiffer(links, i);
    OthersDiffer(links, 0);
    if i > 0 { OthersDiffer(links, i - 1); }
    if i + 1 < |links| { OthersDiffer(links, i + 1); }
    hide Distinct, Without;
    head := list;
    if link.prev != null {
      link.prev.next := link.next;
    }
    if link.next != null {
      link.next.prev := link.prev;
    }
    if link == head {
      head := head.next;
    }
    link.next := null;
    link.prev := null;
    LinkedAfterRemove(links, i);
  }

  /** Puts the link between the sibling and what stands before it. */
  method ListLinkBefore(list: Link, sibling: Link, link: Link, ghost links: seq<Link>, ghost i: nat) returns (head: Link)
    requires Linked(links) && i < |links| && list == links[0] && links[i] == sibling && link !in links
    modifies link, links
    ensures Linked(links[..i] + [link] + links[i..]) && head == if i == 0 then link else list
  {
    OthersDiffer(links, i);
    if i > 0 { OthersDiffer(links, i - 1); }
    hide Distinct;
    link.prev := sibling.prev;
    link.next := sibling;
    sibling.prev := link;
    if link.prev != null {
      link.prev.next := link;
      head := list;
    } else {
      head := link;
    }
    LinkedAfterInsert(links, link, i);
  }

  /** Walks to the last element and puts the link behind it. */
  method ListAppendLink(list: Link, link: Link, ghost links: seq<Link>)
    requires Linked(links) && links != [] && list == links[0] && link !in links
    modifies link, links
    ensures Linked(links + [link])
  {
    OthersDiffer(links, |links| - 1);
    hide Distinct;
    var last := list;
    ghost var j := 0;
    while last.next != null
      invariant 0 <= j < |links| && links[j] == last
      invariant Linked(links)
      decreases |links| - j
    {
      last := last.next;
      j := j + 1;
    }
    last.next := link;
    last.next.prev := last;
    last.next.next := null;
    LinkedAfterInsert(links, link, |links|);
    InsertedAtEnds(links, link);
  }

  /** The new head, with the link before the sibling; without a sibling, at the end of the list. */
  method ListInsertBeforeLink(list: Link?, sibling: Link?, link: Link, ghost links: seq<Link>) returns (head: Link)
    requires Linked(links) && list == First(links) && link !in links
    requires sibling != null ==> sibling in links
    requires links == [] ==> link.prev == null && link.next == null
    modifies link, links
    ensures Linked(InsertedBefore(links, sibling, link)) && head == First(InsertedBefore(links, sibling, link))
  {
    ghost var i := if sibling == null then |links| else FirstIndex(links, sibling);
    InsertedAt(links, sibling, link, i);
    hide InsertedBefore;
    if list == null {
      LinkedAfterInsert(links, link, 0);
      head := link;
    } else if sibling != null {
      hide Linked;
      head := ListLinkBefore(list, sibling, link, links, i);
    } else {
      hide Linked;
      ListAppendLink(list, link, links);
      InsertedAtEnds(links, link);
      head := list;
    }
  }

  class Queue {
    var head: Link?
    var tail: Link?
    var length: nat
    ghost var links: seq<Link>

    constructor ()
      ensures Valid() && links == []
    {
      head, tail, length, links := null, null, 0, [];
    }

    ghost predicate Valid()
      reads this, links
    {
      Linked(links) && head == First(links) && tail == Last(links) && length == |links|
    }

    method PushHeadLink(link: Link)
      requires Valid() && link !in links && link.prev == null && link.next == null
      modifies this, link, links
      ensures Valid() && links == [link] + old(links)
    {
      if links != [] { OthersDiffer(links, 0); }
      hide Distinct;
      link.next := head;
      if head != null {
        head.prev := link;
      } else {
        tail := link;
      }
      LinkedAfterInsert(links, link, 0);
      InsertedAtEnds(links, link);
      hide Linked;
      head := link;
      length := length + 1;
      links := [link] + links;
    }

    method PushTailLink(link: Link)
      requires Valid() && link !in links && link.prev == null && link.next == null
      modifies this, link, links
      ensures Valid() && links == old(links) + [link]
    {
      if links != [] { OthersDiffer(links, |links| - 1); }
      hide Distinct;
      link.prev := tail;
      if tail != null {
        tail.next := link;
      } else {
        head := link;
      }
      LinkedAfterInsert(links, link, |links|);
      InsertedAtEnds(links, link);
      hide Linked;
      tail := link;
      length := length + 1;
      links := links + [link];
    }

    /** The old sequence with the new link just before the sibling, or at its end without one. */
    method InsertBeforeLink(sibling: Link?, link: Link)
      requires Valid() && link !in links && link.prev == null && link.next == null
      requires sibling != null ==> sibling in links
      modifies this, link, links
      ensures Valid() && links == InsertedBefore(old(links), sibling, link)
    {
      if sibling == null {
        InsertedAt(links, null, link, |links|);
        InsertedAtEnds(links, link);
        hide Linked, InsertedBefore;
        PushTailLink(link);
      } else {
        InsertedEnds(links, sibling, link);
        hide Linked, InsertedBefore, First, Last;
        head := ListInsertBeforeLink(head, sibling, link, links);
        length := length + 1;
        links := InsertedBefore(links, sibling, link);
      }
    }

    method Unlink(link: Link)
      requires Valid() && link in links
      modifies this, links
      ensures Valid() && links == Without(old(links), link)
      ensures link.prev == null && link.next == null
    {
      hide Linked, Without, First, Last, Distinct, Before;
      LastPointer(links);
      WithoutEnds(links, link);
      length := length - 1;
      if link == tail {
        tail := tail.prev;
      }
      head := ListRemoveLink(head, link, links);
      links := Without(links, link);
    }
  }

  lemma WithoutEnds(links: seq<Link>, link: Link)
    requires link in links && Distinct(links)
    ensures links != [] && links[0] == First(links) && |Without(links, link)| == |links| - 1
    ensures Last(Without(links, link)) == if link == Last(links) then Before(links, |links| - 1) else Last(links)
  {
    WithoutAt(links, link, FirstIndex(links, link));
  }

  lemma LastPointer(links: seq<Link>)
    ensures Linked(links) && links != [] ==>
              Distinct(links) && Last(links) != null && Last(links).prev == Before(links, |links| - 1)
  {}

  lemma InsertedEnds(links: seq<Link>, sibling: Link, link: Link)
    requires sibling in links
    ensures |InsertedBefore(links, sibling, link)| == |links| + 1
    ensures Last(InsertedBefore(links, sibling, link)) == Last(links)
  {
    InsertedAt(links, sibling, link, FirstIndex(links, sibling));
  }

  // ---------- the layers of a run context ----------

  datatype Op = Push(link: Link) | PushAtBase(link: Link)

  ghost function Pushed(ops: seq<Op>): seq<Link> {
    if ops == [] then [] else (if ops[0].Push? then [ops[0].link] else []) + Pushed(ops[1..])
  }

  ghost function AtBase(ops: seq<Op>): seq<Link> {
    if ops == [] then [] else (if ops[0].PushAtBase? then [ops[0].link] else []) + AtBase(ops[1..])
  }

  ghost function Reversed(s: seq<Link>): seq<Link> {
    if s == [] then [] else Reversed(s[1..]) + [s[0]]
  }

  /** The order the layers have after a series of pushes. */
  ghost function After(layers: seq<Link>, root: Link, ops: seq<Op>): seq<Link>
    decreases |ops|
  {
    if ops == [] then layers
    else
      After(if ops[0].Push? then [ops[0].link] + layers else InsertedBefore(layers, root, ops[0].link), root, ops[1..])
  }

  /** Ordinary layers come first, the newest on top; then those pushed at the base, the newest directly
    * above the root; then the root. */
  lemma {:induction false} LayerOrder(upper: seq<Link>, base: seq<Link>, root: Link, ops: seq<Op>)
    requires root !in upper && root !in base && forall op :: op in ops ==> op.link != root
    ensures After(upper + base + [root], root, ops) == Reversed(Pushed(ops)) + upper + (base + AtBase(ops)) + [root]
    decreases |ops|
  {
    var layers := upper + base + [root];
    if ops == [] {
      assert base + [] == base && [] + upper == upper;
    } else {
      var link := ops[0].link;
      assert ops[0] in ops && forall op :: op in ops[1..] ==> op in ops;
      hide InsertedBefore, Pushed, AtBase, Reversed;
      if ops[0].Push? {
        PushedFirst(ops);
        ReversedFirst(link, Pushed(ops[1..]));
        Assoc(Reversed(Pushed(ops[1..])), [link], upper);
        assert [link] + layers == [link] + upper + base + [root];
        LayerOrder([link] + upper, base, root, ops[1..]);
      } else {
        AtBaseFirst(ops);
        InsertAboveLast(upper, base, root, link);
        Assoc(base, [link], AtBase(ops[1..]));
        LayerOrder(upper, base + [link], root, ops[1..]);
      }
    }
  }

  lemma Assoc(a: seq<Link>, b: seq<Link>, c: seq<Link>)
    ensures a + b + c == a + (b + c)
  {}

  lemma ReversedFirst(link: Link, s: seq<Link>)
    ensures Reversed([link] + s) == Reversed(s) + [link]
  {
    assert ([link] + s)[1..] == s;
  }

  lemma PushedFirst(ops: seq<Op>)
    requires ops != [] && ops[0].Push?
    ensures Pushed(ops) == [ops[0].link] + Pushed(ops[1..]) && AtBase(ops) == AtBase(ops[1..])
  {
    assert [] + AtBase(ops[1..]) == AtBase(ops[1..]);
  }

  lemma AtBaseFirst(ops: seq<Op>)
    requires ops != [] && ops[0].PushAtBase?
    ensures AtBase(ops) == [ops[0].link] + AtBase(ops[1..]) && Pushed(ops) == Pushed(ops[1..])
  {
    assert [] + Pushed(ops[1..]) == Pushed(ops[1..]);
  }

  lemma InsertAboveLast(upper: seq<Link>, base: seq<Link>, root: Link, link: Link)
    requires root !in upper && root !in base
    ensures InsertedBefore(upper + base + [root], root, link) == upper + (base + [link]) + [root]
  {
    var layers, n := upper + base + [root], |upper + base|;
    InsertedAt(layers, root, link, n);
    hide InsertedBefore;
    assert layers[..n] == upper + base && layers[n..] == [root];
  }

  lemma RootLast(links: seq<Link>, root: Link, link: Link)
    requires Distinct(links) && links != [] && Last(links) == root
    ensures InsertedBefore(links, root, link) == links[..|links| - 1] + [link, root]
  {
    InsertedAt(links, root, link, |links| - 1);
  }

  /** The queue of layers, with the root last. */
  class LayerQueue {
    const queue: Queue
    const root: Link

    constructor ()
      ensures fresh(queue) && fresh(root) && Valid() && queue.links == [root]
    {
      var q := new Queue();
      var r := new Link();
      q.PushHeadLink(r);
      queue, root := q, r;
    }

    ghost predicate Valid()
      reads queue, queue.links
    {
      queue.Valid() && queue.links != [] && Last(queue.links) == root
    }

    method PushLayer(link: Link)
      requires Valid() && link !in queue.links && link.prev == null && link.next == null
      modifies queue, link, queue.links
      ensures Valid() && queue.links == [link] + old(queue.links)
      ensures queue.links == After(old(queue.links), root, [Push(link)])
    {
      hide Linked;
      queue.PushHeadLink(link);
    }

    /** The new layer goes directly above the root. */
    method PushLayerAtBase(link: Link)
      requires Valid() && link !in queue.links && link.prev == null && link.next == null
      modifies queue, link, queue.links
      ensures Valid() && queue.links == old(queue.links)[..|old(queue.links)| - 1] + [link, root]
      ensures queue.links == After(old(queue.links), root, [PushAtBase(link)])
    {
      RootLast(queue.links, root, link);
      hide Linked, InsertedBefore;
      queue.InsertBeforeLink(root, link);
    }
  }
}
