/**
 The process map of guacamole-server/src/guacd/proc-map.c: a hash index over
 intrusive lists, and one more list of all processes whose elements the index
 entries point into.
 */
module ProcMap {
  import opened IntrusiveList

  const MAX_CONNECTIONS := 65536
  const BUCKETS := MAX_CONNECTIONS * 2
  const WORD := 0x1_0000_0000

  // A connection id is a C string: signed chars, the terminating NUL left out.
  type Char = c: int | -128 <= c < 128 && c != 0 witness 1
  type Id = seq<Char>

  class Proc {
    const id: Id

    constructor (id: Id)
      ensures this.id == id
    {
      this.id := id;
    }
  }

  datatype Entry = Entry(proc: Proc, element: Element<Proc>)

  // The id read as a numeral in base 65599, with no wrap-around.
  function Numeral(id: Id): (n: int) {
    if id == [] then 0 else Numeral(id[..|id| - 1]) * 65599 + id[|id| - 1]
  }

  /** Where the bucket macro, expanded without parentheses, sends an id. */
  function Bucket(id: Id): (index: nat)
    ensures index < BUCKETS && index % 2 == 0
  {
    Numeral(id) % WORD % MAX_CONNECTIONS * 2
  }

  lemma WrapOnce(a: int, c: int)
    ensures (a % WORD * 65599 + c) % WORD == (a * 65599 + c) % WORD
  {
    var q := a / WORD;
    var n := a % WORD * 65599 + c;
    assert a * 65599 + c == n + WORD * (q * 65599);
    Whole(n, q * 65599);
  }

  lemma Whole(n: int, k: int)
    ensures (n + WORD * k) % WORD == n % WORD
  {
  }

  /** Wrapping at every character is the same as wrapping once at the end. */
  method Hash(id: Id) returns (hash: nat)
    ensures hash == Numeral(id) % WORD
  {
    hash := 0;
    for i := 0 to |id|
      invariant hash == Numeral(id[..i]) % WORD
    {
      assert id[..i + 1][..i] == id[..i];
      WrapOnce(Numeral(id[..i]), id[i]);
      hash := (hash * 65599 + id[i]) % WORD;
    }
    assert id[..|id|] == id;
  }

  /** The first element for the id, or null when the bucket has none. */
  method Find(bucket: List<Entry>, id: Id) returns (found: Element?<Entry>, ghost k: nat)
    requires bucket.Valid()
    ensures k <= |bucket.elements|
    ensures forall i :: 0 <= i < k ==> bucket.elements[i].data.proc.id != id
    ensures found == null <==> k == |bucket.elements|
    ensures found != null ==> bucket.elements[k] == found && found.data.proc.id == id
  {
    found, k := bucket.head, 0;
    while found != null
      invariant k <= |bucket.elements|
      invariant found == if k < |bucket.elements| then bucket.elements[k] else null
      invariant forall i :: 0 <= i < k ==> bucket.elements[i].data.proc.id != id
      decreases |bucket.elements| - k
    {
      if found.data.proc.id == id {
        break;
      }
      assert k + 1 < |bucket.elements| ==> found.next == bucket.elements[k + 1];
      found, k := found.next, k + 1;
    }
  }

  /** The index as a map from ids to processes. */
  ghost function Meaning(index: map<Id, Element<Entry>>): (m: map<Id, Proc>) {
    map id | id in index :: index[id].data.proc
  }

  function Datas(elements: seq<Element<Proc>>): (procs: seq<Proc>) {
    seq(|elements|, i requires 0 <= i < |elements| => elements[i].data)
  }

  ghost predicate Belong(row: seq<Element<Entry>>, b: nat) {
    forall i :: 0 <= i < |row| ==> Bucket(row[i].data.proc.id) == b
  }

  lemma Apart(row: seq<Element<Entry>>, b: nat, other: seq<Element<Entry>>, c: nat)
    requires Belong(row, b) && Belong(other, c) && b != c
    ensures forall e :: e in other ==> e !in row
  {
  }

  // One bucket is a well-linked list of its row, whose elements all belong to it.
  ghost predicate Hooked(bucket: List<Entry>, row: seq<Element<Entry>>, nodes: set<Element<Entry>>, b: nat)
    reads bucket, nodes
  {
    && bucket.elements == row
    && (forall i :: 0 <= i < |row| ==> row[i] in nodes)
    && Belong(row, b)
    && bucket.Valid()
  }

  ghost predicate Linked(buckets: seq<List<Entry>>, rows: seq<seq<Element<Entry>>>, nodes: set<Element<Entry>>)
    reads buckets, nodes
  {
    && |buckets| == |rows| == BUCKETS
    && (forall b, c :: 0 <= b < c < BUCKETS ==> buckets[b] != buckets[c])
    && (forall b {:trigger Hooked(buckets[b], rows[b], nodes, b)} :: 0 <= b < BUCKETS ==>
          Hooked(buckets[b], rows[b], nodes, b))
  }

  // The list operations on one bucket leave the others well-linked.
  method Push(ghost buckets: seq<List<Entry>>, ghost rows: seq<seq<Element<Entry>>>, ghost nodes: set<Element<Entry>>,
              ghost b: nat, bucket: List<Entry>, entry: Entry)
    returns (place: Element<Entry>)
    requires Linked(buckets, rows, nodes) && b < BUCKETS && buckets[b] == bucket && Bucket(entry.proc.id) == b
    modifies bucket, rows[b]
    ensures Linked(buckets, rows[b := [place] + rows[b]], nodes + {place}) && place.data == entry && fresh(place)
  {
    assert Hooked(bucket, rows[b], nodes, b);
    place := bucket.Add(entry);
    forall c: nat | c < BUCKETS && c != b
      ensures Hooked(buckets[c], rows[c], nodes + {place}, c)
    {
      assert old(Hooked(buckets[c], rows[c], nodes, c));
      Apart(rows[b], b, rows[c], c);
    }
  }

  method Cut(ghost buckets: seq<List<Entry>>, ghost rows: seq<seq<Element<Entry>>>, ghost nodes: set<Element<Entry>>,
             ghost b: nat, bucket: List<Entry>, place: Element<Entry>, ghost k: nat)
    requires Linked(buckets, rows, nodes) && b < BUCKETS && buckets[b] == bucket
    requires k < |rows[b]| && rows[b][k] == place
    modifies bucket, rows[b]
    ensures Linked(buckets, rows[b := Without(rows[b], k)], nodes)
  {
    assert Hooked(bucket, rows[b], nodes, b);
    bucket.Remove(place, k);
    forall c: nat | c < BUCKETS && c != b
      ensures Hooked(buckets[c], rows[c], nodes, c)
    {
      assert old(Hooked(buckets[c], rows[c], nodes, c));
      Apart(rows[b], b, rows[c], c);
    }
  }

  // A mapped id has an element in its bucket, and that one an element in the global list.
  ghost predicate Filed(rows: seq<seq<Element<Entry>>>, processes: seq<Element<Proc>>,
                        index: map<Id, Element<Entry>>, id: Id)
  {
    && |rows| == BUCKETS
    && id in index && index[id].data.proc.id == id && index[id] in rows[Bucket(id)]
    && index[id].data.element in processes && index[id].data.element.data == index[id].data.proc
  }

  // The elements of a bucket are those of mapped ids,
  ghost predicate Known(row: seq<Element<Entry>>, index: map<Id, Element<Entry>>) {
    forall k :: 0 <= k < |row| ==> row[k].data.proc.id in index && index[row[k].data.proc.id] == row[k]
  }

  // and so are the elements of the global list.
  ghost predicate Enlisted(processes: seq<Element<Proc>>, index: map<Id, Element<Entry>>) {
    forall k :: 0 <= k < |processes| ==>
      processes[k].data.id in index && index[processes[k].data.id].data.element == processes[k]
  }

  ghost predicate Consistent(rows: seq<seq<Element<Entry>>>, processes: seq<Element<Proc>>,
                             index: map<Id, Element<Entry>>)
  {
    && |rows| == BUCKETS
    && Enlisted(processes, index)
    && (forall id {:trigger Filed(rows, processes, index, id)} :: id in index ==> Filed(rows, processes, index, id))
    && (forall b {:trigger Known(rows[b], index)} :: 0 <= b < BUCKETS ==> Known(rows[b], index) && Belong(rows[b], b))
  }

  // The new element `place` goes to the front of its bucket and its process to the front of the list.
  lemma Added(rows: seq<seq<Element<Entry>>>, processes: seq<Element<Proc>>, index: map<Id, Element<Entry>>,
              place: Element<Entry>)
    requires Consistent(rows, processes, index)
    requires place.data.proc.id !in index && place.data.element.data == place.data.proc
    ensures
      var proc, element := place.data.proc, place.data.element;
      var b := Bucket(proc.id);
      && Consistent(rows[b := [place] + rows[b]], [element] + processes, index[proc.id := place])
      && Meaning(index[proc.id := place]) == Meaning(index)[proc.id := proc]
      && Datas([element] + processes) == [proc] + Datas(processes)
  {
    var b := Bucket(place.data.proc.id);
    var rows', processes' := rows[b := [place] + rows[b]], [place.data.element] + processes;
    var index' := index[place.data.proc.id := place];
    forall id | id in index'
      ensures Filed(rows', processes', index', id)
    {
      if id in index {
        assert Filed(rows, processes, index, id);
      }
    }
    forall c | 0 <= c < BUCKETS
      ensures Known(rows'[c], index') && Belong(rows'[c], c)
    {
      assert Known(rows[c], index);
    }
  }

  function Without<T>(s: seq<T>, k: nat): (r: seq<T>)
    requires k < |s|
  {
    s[..k] + s[k + 1..]
  }

  lemma Removed(rows: seq<seq<Element<Entry>>>, processes: seq<Element<Proc>>, index: map<Id, Element<Entry>>,
                id: Id, k: nat, at: nat)
    requires Consistent(rows, processes, index) && id in index
    requires k < |rows[Bucket(id)]| && rows[Bucket(id)][k] == index[id]
    requires forall i, j :: 0 <= i < j < |rows[Bucket(id)]| ==> rows[Bucket(id)][i] != rows[Bucket(id)][j]
    requires at < |processes| && processes[at] == index[id].data.element
    requires forall i, j :: 0 <= i < j < |processes| ==> processes[i] != processes[j]
    ensures Consistent(rows[Bucket(id) := Without(rows[Bucket(id)], k)], Without(processes, at), index - {id})
  {
    var b := Bucket(id);
    var rows', processes', index' := rows[b := Without(rows[b], k)], Without(processes, at), index - {id};
    assert Filed(rows, processes, index, id);
    forall other | other in index'
      ensures Filed(rows', processes', index', other)
    {
      assert Filed(rows, processes, index, other);
      if Bucket(other) == b {
        Kept(rows[b], k, index[other]);
      }
      Kept(processes, at, index[other].data.element);
    }
    forall c | 0 <= c < BUCKETS
      ensures Known(rows'[c], index') && Belong(rows'[c], c)
    {
      assert Known(rows[c], index);
      if c == b {
        RowWithout(rows[b], index, id, k);
      } else {
        OtherRow(rows, processes, index, id, c);
      }
    }
    ListWithout(processes, index, id, at);
  }

  // Deleting position `k` keeps what differs from what was there.
  lemma Kept<T>(s: seq<T>, k: nat, x: T)
    requires x in s && k < |s| && s[k] != x
    ensures x in Without(s, k)
  {
    assert s == s[..k] + [s[k]] + s[k + 1..];
  }

  lemma RowWithout(row: seq<Element<Entry>>, index: map<Id, Element<Entry>>, id: Id, k: nat)
    requires Known(row, index) && id in index && k < |row| && row[k] == index[id] && row[k].data.proc.id == id
    requires forall i, j :: 0 <= i < j < |row| ==> row[i] != row[j]
    ensures Known(Without(row, k), index - {id})
  {
    forall i | 0 <= i < |Without(row, k)|
      ensures var other := Without(row, k)[i].data.proc.id; other != id && other in index && index[other] == Without(row, k)[i]
    {
      assert Without(row, k)[i] == row[if i < k then i else i + 1];
    }
  }

  lemma OtherRow(rows: seq<seq<Element<Entry>>>, processes: seq<Element<Proc>>, index: map<Id, Element<Entry>>,
                 id: Id, c: nat)
    requires Consistent(rows, processes, index) && id in index && c < BUCKETS && c != Bucket(id)
    ensures Known(rows[c], index - {id})
  {
    assert Known(rows[c], index);
  }

  lemma ListWithout(processes: seq<Element<Proc>>, index: map<Id, Element<Entry>>, id: Id, at: nat)
    requires Enlisted(processes, index) && id in index && at < |processes|
    requires processes[at] == index[id].data.element && processes[at].data.id == id
    requires forall i, j :: 0 <= i < j < |processes| ==> processes[i] != processes[j]
    ensures Enlisted(Without(processes, at), index - {id})
  {
    forall i | 0 <= i < |Without(processes, at)|
      ensures
        var e := Without(processes, at)[i];
        e.data.id != id && e.data.id in index && index[e.data.id].data.element == e
    {
      assert Without(processes, at)[i] == processes[if i < at then i else i + 1];
    }
  }

  lemma RemovedMeaning(processes: seq<Element<Proc>>, index: map<Id, Element<Entry>>, id: Id, at: nat)
    requires at < |processes|
    ensures Meaning(index - {id}) == Meaning(index) - {id}
    ensures Datas(Without(processes, at)) == Without(Datas(processes), at)
  {
  }

  method AllocateBuckets() returns (buckets: seq<List<Entry>>)
    ensures |buckets| == BUCKETS
    ensures forall b :: 0 <= b < BUCKETS ==> fresh(buckets[b]) && buckets[b].Valid() && buckets[b].elements == []
    ensures forall b, c :: 0 <= b < c < BUCKETS ==> buckets[b] != buckets[c]
  {
    buckets := [];
    for i := 0 to BUCKETS
      invariant |buckets| == i
      invariant forall b :: 0 <= b < i ==> fresh(buckets[b]) && buckets[b].Valid() && buckets[b].elements == []
      invariant forall b, c :: 0 <= b < c < i ==> buckets[b] != buckets[c]
    {
      var bucket := new List();
      buckets := buckets + [bucket];
    }
  }

  class Map {
    const buckets: seq<List<Entry>>
    const processes: List<Proc>
    // The elements of each bucket, all of them, and where each mapped id is.
    ghost var rows: seq<seq<Element<Entry>>>
    ghost var nodes: set<Element<Entry>>
    ghost var index: map<Id, Element<Entry>>

    /** What the map means. */
    ghost function Contents(): (m: map<Id, Proc>)
      reads this
    {
      Meaning(index)
    }

    /** The processes in the order of the global list. */
    ghost function Members(): (s: seq<Proc>)
      reads this, processes
    {
      Datas(processes.elements)
    }

    // Whatever the lists hold that they did not hold before is newly allocated.
    twostate predicate Grown(oldNodes: set<Element<Entry>>, oldElements: seq<Element<Proc>>)
      reads this, processes
    {
      && fresh(nodes - oldNodes)
      && (forall i :: 0 <= i < |processes.elements| ==>
            processes.elements[i] in oldElements || fresh(processes.elements[i]))
    }

    // All lists are well-linked and hold what the ghost fields say.
    ghost predicate Shaped()
      reads this, processes, processes.elements, buckets, nodes
    {
      processes.Valid() && Linked(buckets, rows, nodes)
    }

    // The lists and the index are in order, in particular for one id.
    ghost predicate Settled(id: Id)
      reads this, processes, processes.elements, buckets, nodes
    {
      && Shaped()
      && Consistent(rows, processes.elements, index)
      && (id in index ==> Filed(rows, processes.elements, index, id))
    }

    // Stated id by id so that callers who only pass it on need not look inside.
    ghost predicate Valid()
      reads this, processes, processes.elements, buckets, nodes
    {
      && |buckets| == |rows| == BUCKETS
      && (forall id {:trigger Settled(id)} :: Settled(id))
    }

    constructor ()
      ensures Valid() && Contents() == map[] && Members() == []
      ensures fresh(this) && fresh(processes) && nodes == {} && forall b :: b in buckets ==> fresh(b)
    {
      var all := AllocateBuckets();
      buckets := all;
      processes := new List();
      index, nodes, rows := map[], {}, seq(BUCKETS, _ => []);
      new;
      forall b: nat | b < BUCKETS
        ensures Hooked(buckets[b], rows[b], nodes, b)
      {
      }
    }

    method FindBucket(id: Id) returns (bucket: List<Entry>)
      requires |buckets| == BUCKETS
      ensures bucket == buckets[Bucket(id)]
    {
      var hash := Hash(id);
      bucket := buckets[hash % MAX_CONNECTIONS * 2];
    }

    lemma RowsInside(id: Id)
      requires Valid()
      ensures forall e :: e in rows[Bucket(id)] ==> e in nodes
    {
      assert Settled(id);
      assert Hooked(buckets[Bucket(id)], rows[Bucket(id)], nodes, Bucket(id));
    }

    // The list operations on the global list leave the buckets alone.
    method Enrol(proc: Proc) returns (element: Element<Proc>)
      requires Shaped()
      modifies processes, processes.elements
      ensures Shaped() && element.data == proc && processes.elements == [element] + old(processes.elements)
      ensures fresh(element)
    {
      element := processes.Add(proc);
    }

    method Strike(element: Element<Proc>, ghost at: nat)
      requires Shaped() && at < |processes.elements| && processes.elements[at] == element
      modifies processes, processes.elements
      ensures Shaped()
      ensures processes.elements == Without(old(processes.elements), at)
      ensures forall i :: 0 <= i < |processes.elements| ==> processes.elements[i] in old(processes.elements)
    {
      processes.Remove(element, at);
    }

    method Place(ghost b: nat, bucket: List<Entry>, entry: Entry) returns (place: Element<Entry>)
      requires Shaped() && b < BUCKETS && buckets[b] == bucket && Bucket(entry.proc.id) == b
      modifies this, bucket, rows[b]
      ensures Shaped() && place.data == entry && fresh(place) && nodes == old(nodes) + {place}
      ensures rows == old(rows)[b := [place] + old(rows)[b]] && index == old(index)[entry.proc.id := place]
      ensures processes.elements == old(processes.elements)
    {
      place := Push(buckets, rows, nodes, b, bucket, entry);
      rows, nodes, index := rows[b := [place] + rows[b]], nodes + {place}, index[entry.proc.id := place];
    }

    method Displace(ghost b: nat, bucket: List<Entry>, place: Element<Entry>, ghost k: nat)
      requires Shaped() && b < BUCKETS && buckets[b] == bucket
      requires k < |rows[b]| && rows[b][k] == place
      modifies this, bucket, rows[b]
      ensures Shaped()
      ensures rows == old(rows)[b := Without(old(rows)[b], k)] && index == old(index) - {place.data.proc.id}
      ensures nodes == old(nodes)
      ensures processes.elements == old(processes.elements)
    {
      Cut(buckets, rows, nodes, b, bucket, place, k);
      rows, index := rows[b := Without(rows[b], k)], index - {place.data.proc.id};
    }

    // A bucket holds the element of every mapped id that belongs to it.
    method Locate(id: Id) returns (bucket: List<Entry>, found: Element?<Entry>, ghost k: nat)
      requires Valid()
      ensures bucket == buckets[Bucket(id)]
      ensures id !in index ==> found == null
      ensures id in index ==>
                && found == index[id] && found.data.proc.id == id
                && k < |rows[Bucket(id)]| && rows[Bucket(id)][k] == found
    {
      assert Settled(id);
      bucket := FindBucket(id);
      assert Hooked(bucket, rows[Bucket(id)], nodes, Bucket(id));
      found, k := Find(bucket, id);
      assert Known(rows[Bucket(id)], index);
      if id in index {
        assert Filed(rows, processes.elements, index, id);
      }
    }

    method Insert(bucket: List<Entry>, proc: Proc)
      requires Valid() && bucket == buckets[Bucket(proc.id)] && proc.id !in index
      modifies this, processes, processes.elements, bucket, rows[Bucket(proc.id)]
      ensures Valid()
      ensures Contents() == old(Contents())[proc.id := proc] && Members() == [proc] + old(Members())
      ensures Grown(old(nodes), old(processes.elements))
    {
      assert Settled(proc.id);
      var element := Enrol(proc);
      var place := Place(Bucket(proc.id), bucket, Entry(proc, element));
      Added(old(rows), old(processes.elements), old(index), place);
    }

    method Add(proc: Proc) returns (status: int)
      requires Valid()
      modifies this, processes, processes.elements, buckets[Bucket(proc.id)], rows[Bucket(proc.id)]
      ensures Valid()
      ensures proc.id in old(Contents()) ==>
                status == 1 && Contents() == old(Contents()) && Members() == old(Members())
      ensures proc.id !in old(Contents()) ==>
                status == 0 && Contents() == old(Contents())[proc.id := proc] && Members() == [proc] + old(Members())
      ensures Grown(old(nodes), old(processes.elements))
    {
      var bucket, found, k := Locate(proc.id);
      if found == null {
        Insert(bucket, proc);
        return 0;
      }
      return 1;
    }

    method Retrieve(id: Id) returns (proc: Proc?)
      requires Valid()
      ensures proc == if id in Contents() then Contents()[id] else null
    {
      var bucket, found, k := Locate(id);
      if found == null {
        return null;
      }
      proc := found.data.proc;
    }

    // Where the process of a mapped id is listed, and what removing both elements will mean.
    lemma Prepare(id: Id, k: nat) returns (at: nat)
      requires Valid() && id in index && k < |rows[Bucket(id)]| && rows[Bucket(id)][k] == index[id]
      ensures Shaped() && at < |processes.elements| && processes.elements[at] == index[id].data.element
      ensures Members()[at] == Contents()[id]
      ensures Meaning(index - {id}) == Contents() - {id}
      ensures Datas(Without(processes.elements, at)) == Without(Members(), at)
      ensures Consistent(rows[Bucket(id) := Without(rows[Bucket(id)], k)], Without(processes.elements, at), index - {id})
    {
      assert Settled(id);
      assert Hooked(buckets[Bucket(id)], rows[Bucket(id)], nodes, Bucket(id));
      at :| at < |processes.elements| && processes.elements[at] == index[id].data.element;
      Removed(rows, processes.elements, index, id, k, at);
      RemovedMeaning(processes.elements, index, id, at);
    }

    method Delete(bucket: List<Entry>, found: Element<Entry>, ghost id: Id, ghost k: nat)
      returns (proc: Proc, ghost at: nat)
      requires Valid() && bucket == buckets[Bucket(id)] && id in index && index[id] == found && found.data.proc.id == id
      requires k < |rows[Bucket(id)]| && rows[Bucket(id)][k] == found
      modifies this, processes, processes.elements, bucket, rows[Bucket(id)]
      ensures Valid()
      ensures proc == old(Contents())[id] && Contents() == old(Contents()) - {id}
      ensures at < |old(Members())| && old(Members())[at] == proc && Members() == Without(old(Members()), at)
      ensures Grown(old(nodes), old(processes.elements))
    {
      var entry := found.data;
      at := Prepare(id, k);
      Strike(entry.element, at);
      proc := entry.proc;
      Displace(Bucket(id), bucket, found, k);
    }

    method Remove(id: Id) returns (proc: Proc?, ghost at: nat)
      requires Valid()
      modifies this, processes, processes.elements, buckets[Bucket(id)], rows[Bucket(id)]
      ensures Valid()
      ensures id !in old(Contents()) ==>
                proc == null && Contents() == old(Contents()) && Members() == old(Members())
      ensures id in old(Contents()) ==>
                && proc == old(Contents())[id] && Contents() == old(Contents()) - {id}
                && at < |old(Members())| && old(Members())[at] == proc
                && Members() == Without(old(Members()), at)
      ensures Grown(old(nodes), old(processes.elements))
    {
      var bucket, found, k := Locate(id);
      if found == null {
        return null, 0;
      }
      proc, at := Delete(bucket, found, id, k);
    }

    /** The processes the callback is invoked on, in order. */
    method Foreach() returns (called: seq<Proc>)
      requires Valid()
      ensures called == Members()
    {
      assert Settled([]);
      called := [];
      var element := processes.head;
      while element != null
        invariant |called| <= |processes.elements| && called == Members()[..|called|]
        invariant element == if |called| < |processes.elements| then processes.elements[|called|] else null
        decreases |processes.elements| - |called|
      {
        ghost var k := |called|;
        assert k + 1 < |processes.elements| ==> element.next == processes.elements[k + 1];
        called := called + [element.data];
        element := element.next;
      }
    }
  }

  /** The global list holds each mapped process exactly once, and nothing else. */
  lemma EachMappedProcessOnce(m: Map)
    requires m.Valid()
    ensures forall id :: id in m.Contents() ==> m.Contents()[id].id == id
    ensures forall i, j :: 0 <= i < j < |m.Members()| ==> m.Members()[i].id != m.Members()[j].id
    ensures forall p: Proc :: p in m.Members() <==> p.id in m.Contents() && m.Contents()[p.id] == p
  {
    assert m.Settled([]);
    forall id | id in m.Contents()
      ensures m.Contents()[id].id == id
    {
      assert Filed(m.rows, m.processes.elements, m.index, id);
    }
    forall p: Proc | p.id in m.Contents() && m.Contents()[p.id] == p
      ensures p in m.Members()
    {
      assert Filed(m.rows, m.processes.elements, m.index, p.id);
      var i :| 0 <= i < |m.processes.elements| && m.processes.elements[i] == m.index[p.id].data.element;
      assert m.Members()[i] == p;
    }
  }

  /** Both elements of a mapped id are designated by the slots that point to them. */
  lemma BackPointersHold(m: Map, id: Id)
    requires m.Valid() && id in m.index
    ensures Pointee(m.index[id].ptr) == m.index[id]
    ensures Pointee(m.index[id].data.element.ptr) == m.index[id].data.element
  {
    assert m.Settled(id);
    assert Hooked(m.buckets[Bucket(id)], m.rows[Bucket(id)], m.nodes, Bucket(id));
    BackPointersDesignate(m.buckets[Bucket(id)], m.index[id]);
    BackPointersDesignate(m.processes, m.index[id].data.element);
  }

  datatype Call = Add(proc: Proc) | Retrieve(id: Id) | Remove(id: Id)
  datatype Answer = Status(code: int) | Found(proc: Proc?)

  // The calls on a plain finite map.
  function Get(m: map<Id, Proc>, id: Id): (proc: Proc?) {
    if id in m then m[id] else null
  }

  function Reply(m: map<Id, Proc>, call: Call): (answer: Answer) {
    match call
    case Add(proc) => Status(if proc.id in m then 1 else 0)
    case Retrieve(id) => Found(Get(m, id))
    case Remove(id) => Found(Get(m, id))
  }

  function Next(m: map<Id, Proc>, call: Call): (m': map<Id, Proc>) {
    match call
    case Add(proc) => if proc.id in m then m else m[proc.id := proc]
    case Retrieve(_) => m
    case Remove(id) => m - {id}
  }

  function After(m: map<Id, Proc>, calls: seq<Call>): (m': map<Id, Proc>) {
    if calls == [] then m else Next(After(m, calls[..|calls| - 1]), calls[|calls| - 1])
  }

  method Perform(m: Map, call: Call) returns (answer: Answer)
    requires m.Valid()
    modifies m, m.processes, m.processes.elements, m.buckets, m.nodes
    ensures m.Valid() && m.Grown(old(m.nodes), old(m.processes.elements))
    ensures answer == Reply(old(m.Contents()), call) && m.Contents() == Next(old(m.Contents()), call)
  {
    m.RowsInside(match call case Add(proc) => proc.id case Retrieve(id) => id case Remove(id) => id);
    match call {
      case Add(proc) =>
        var status := m.Add(proc);
        answer := Status(status);
      case Retrieve(id) =>
        var proc := m.Retrieve(id);
        answer := Found(proc);
      case Remove(id) =>
        var proc, _ := m.Remove(id);
        answer := Found(proc);
    }
  }

  /** Every sequence of calls is answered as a finite map would answer it. */
  method Run(m: Map, calls: seq<Call>) returns (answers: seq<Answer>)
    requires m.Valid()
    modifies m, m.processes, m.processes.elements, m.buckets, m.nodes
    ensures m.Valid() && m.Grown(old(m.nodes), old(m.processes.elements))
    ensures m.Contents() == After(old(m.Contents()), calls)
    ensures |answers| == |calls|
    ensures forall i :: 0 <= i < |calls| ==> answers[i] == Reply(After(old(m.Contents()), calls[..i]), calls[i])
  {
    answers := [];
    for i := 0 to |calls|
      invariant m.Valid() && m.Grown(old(m.nodes), old(m.processes.elements))
      invariant m.Contents() == After(old(m.Contents()), calls[..i])
      invariant |answers| == i
      invariant forall j :: 0 <= j < i ==> answers[j] == Reply(After(old(m.Contents()), calls[..j]), calls[j])
    {
      assert calls[..i + 1][..i] == calls[..i];
      var answer := Perform(m, calls[i]);
      answers := answers + [answer];
    }
    assert calls[..|calls|] == calls;
  }
}
