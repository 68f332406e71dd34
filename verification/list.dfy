/**
 The intrusive list of guacamole-server/src/common/list.c. Each element keeps
 a back-pointer `ptr` to the slot (the list's head, or another element's
 `next`) that points to it, and removal writes through that slot without ever
 looking at the list it is given.
 */
module IntrusiveList {

  // A C `element**`: the address of a list's head or of an element's `next`.
  datatype Slot<T> = HeadOf(list: List<T>) | NextOf(element: Element<T>)

  class Element<T> {
    const data: T
    var next: Element?<T>
    var ptr: Slot<T>

    constructor (data: T, next: Element?<T>, ptr: Slot<T>)
      ensures this.data == data && this.next == next && this.ptr == ptr
    {
      this.data := data;
      this.next := next;
      this.ptr := ptr;
    }
  }

  // The pointer stored in a slot.
  ghost function Pointee<T>(slot: Slot<T>): (element: Element?<T>)
    reads if slot.HeadOf? then {slot.list as object} else {slot.element}
  {
    match slot
    case HeadOf(list) => list.head
    case NextOf(element) => element.next
  }

  class List<T> {
    var head: Element?<T>
    ghost var elements: seq<Element<T>>

    /**
     Following `next` from the head visits `elements`, no element twice, and
     the back-pointer of each is the slot before it.
     */
    ghost predicate Valid()
      reads this, elements
    {
      && (head == null <==> elements == [])
      && (elements != [] ==> head == elements[0] && head.ptr == HeadOf(this) && elements[|elements| - 1].next == null)
      && (forall i, j :: 0 <= i < j < |elements| ==> elements[i] != elements[j])
      && (forall i, j :: 0 <= i && i + 1 == j < |elements| ==>
            elements[i].next == elements[j] && elements[j].ptr == NextOf(elements[i]))
    }

    constructor ()
      ensures Valid() && elements == []
    {
      head := null;
      elements := [];
    }

    method Add(data: T) returns (element: Element<T>)
      requires Valid()
      modifies this, elements
      ensures Valid() && fresh(element) && element.data == data
      ensures elements == [element] + old(elements)
    {
      element := new Element(data, head, HeadOf(this));
      if head != null {
        head.ptr := NextOf(element);
      }
      head := element;
      elements := [element] + elements;
    }

    /** Afterwards the slot that designated the element designates its successor. */
    method Remove(element: Element<T>, ghost k: nat)
      requires Valid() && k < |elements| && elements[k] == element
      modifies this, elements
      ensures Valid()
      ensures elements == old(elements)[..k] + old(elements)[k + 1..]
      ensures Pointee(old(element.ptr)) == old(element.next)
    {
      ghost var was := elements;
      assert k > 0 ==> element.ptr == NextOf(was[k - 1]);
      assert k + 1 < |was| ==> element.next == was[k + 1];
      match element.ptr {
        case HeadOf(list) => list.head := element.next;
        case NextOf(before) => before.next := element.next;
      }
      if element.next != null {
        element.next.ptr := element.ptr;
      }
      elements := elements[..k] + elements[k + 1..];
    }
  }

  /** Every back-pointer designates the slot that points to its own element. */
  lemma BackPointersDesignate<T>(list: List<T>, element: Element<T>)
    requires list.Valid() && element in list.elements
    ensures Pointee(element.ptr) == element
  {
    var i :| 0 <= i < |list.elements| && list.elements[i] == element;
    if i > 0 {
      assert list.elements[i - 1].next == list.elements[i];
    }
  }
}
