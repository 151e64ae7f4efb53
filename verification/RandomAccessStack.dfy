/** neo/VM/RandomAccessStack.py: the stack the VM pushes, pops and indexes from the top. */
module RandomAccessStack {
  import opened Wrappers

  /** The list position of the item `index` steps below the top; a negative index counts from the bottom. */
  function Position(size: int, index: int): Option<nat> {
    var i := if index < 0 then index + size else index;
    if index >= size || i < 0 then None else Some(size - 1 - i)
  }

  function Peek<T>(s: seq<T>, index: int): Option<T> {
    match Position(|s|, index)
    case Some(p) => Some(s[p])
    case None => None
  }

  function Remove<T>(s: seq<T>, index: int): Option<seq<T>> {
    match Position(|s|, index)
    case Some(p) => Some(s[..p] + s[p + 1..])
    case None => None
  }

  function Set<T>(s: seq<T>, index: int, item: T): Option<seq<T>> {
    match Position(|s|, index)
    case Some(p) => Some(s[p := item])
    case None => None
  }

  /** `list.insert` clamps positions past the end, so a negative index inserts on top. */
  function Insert<T>(s: seq<T>, index: int, item: T): Option<seq<T>> {
    if index > |s| then None
    else if index < 0 then Some(s + [item])
    else Some(s[..|s| - index] + [item] + s[|s| - index..])
  }

  /** The top `count` items, in order; all of them when `count` is -1. */
  function Top<T>(s: seq<T>, count: int): seq<T>
    requires -1 <= count <= |s|
  {
    if count == -1 then s else s[|s| - count..]
  }

  /** Python's `list[start:]`, whose negative start counts from the end. */
  function SliceFrom<T>(s: seq<T>, start: int): (r: seq<T>)
    ensures 0 <= start <= |s| ==> r == s[start..]
    ensures start < 0 ==> |r| == if |s| + start < 0 then |s| else -start
  {
    if start > |s| then []
    else if start >= 0 then s[start..]
    else if |s| + start < 0 then s
    else s[|s| + start..]
  }

  class Stack<T> {
    var list: seq<T>
    var size: int

    predicate Valid()
      reads this
    {
      size == |list|
    }

    constructor ()
      ensures Valid() && list == []
    {
      list, size := [], 0;
    }

    method Clear()
      modifies this
      ensures Valid() && list == []
    {
      list, size := [], 0;
    }

    /** Copying keeps the counter in step with the list exactly when there are `count` items to copy. */
    method CopyTo(stack: Stack<T>, count: int)
      requires stack != this && count >= -1
      modifies stack
      ensures Valid() && old(stack.Valid()) ==> (stack.Valid() <==> count <= size)
      ensures Valid() && count <= size ==> stack.list == old(stack.list) + Top(list, count)
      ensures list == [] ==> stack.list == old(stack.list)
      ensures 0 < count && size < count ==> stack.list == old(stack.list) + SliceFrom(list, size - count)
      ensures stack.size == old(stack.size) + if count == -1 then size else count
    {
      if count == 0 {
        return;
      }
      if count == -1 {
        stack.list := stack.list + list;
        stack.size := stack.size + size;
      } else {
        var skip := size - count;
        stack.list := stack.list + SliceFrom(list, skip);
        stack.size := stack.size + count;
      }
    }

    method InsertAt(index: int, item: T) returns (ok: bool)
      requires Valid()
      modifies this
      ensures Valid() && ok == Insert(old(list), index, item).Some?
      ensures list == if ok then Insert(old(list), index, item).value else old(list)
    {
      if index > size {
        return false;
      }
      var at := if index < 0 then size else size - index;
      list := list[..at] + [item] + list[at..];
      size := size + 1;
      return true;
    }

    method PeekAt(index: int) returns (r: Option<T>)
      requires Valid()
      ensures r == Peek(list, index)
    {
      var i := index;
      if i >= size {
        return None;
      }
      if i < 0 {
        i := i + size;
      }
      if i < 0 {
        return None;
      }
      return Some(list[size - i - 1]);
    }

    method PushT(item: T)
      modifies this
      requires Valid()
      ensures Valid() && list == old(list) + [item]
    {
      list := list + [item];
      size := size + 1;
    }

    method RemoveAt(index: int) returns (r: Option<T>)
      requires Valid()
      modifies this
      ensures Valid() && r == Peek(old(list), index)
      ensures list == if r.Some? then Remove(old(list), index).value else old(list)
    {
      var i := index;
      if i >= size {
        return None;
      }
      if i < 0 {
        i := i + size;
      }
      if i < 0 {
        return None;
      }
      r := Some(list[size - 1 - i]);
      list := list[..size - 1 - i] + list[size - i..];
      size := size - 1;
    }

    method Pop() returns (r: Option<T>)
      requires Valid()
      modifies this
      ensures Valid()
      ensures if old(list) == [] then r == None && list == []
        else r == Some(old(list)[|old(list)| - 1]) && list == old(list)[..|old(list)| - 1]
    {
      r := RemoveAt(0);
    }

    /** PICK: a copy of the item `index` below the top. */
    method Pick(index: nat) returns (ok: bool)
      requires Valid()
      modifies this
      ensures Valid() && ok == (index < |old(list)|)
      ensures list == if ok then old(list) + [old(list)[|old(list)| - 1 - index]] else old(list)
    {
      var item := PeekAt(index);
      if item.None? {
        return false;
      }
      PushT(item.value);
      return true;
    }

    /** ROLL, and with 2 and 1 ROT and SWAP: the item `index` below the top comes to the top. */
    method RollUp(index: nat) returns (ok: bool)
      requires Valid()
      modifies this
      ensures Valid() && ok == (index < |old(list)|)
      ensures ok ==> list == Remove(old(list), index).value + [Peek(old(list), index).value]
      ensures multiset(list) == multiset(old(list)) && (!ok ==> list == old(list))
    {
      if index < |list| { RollPermutes(list, index); }
      var item := RemoveAt(index);
      if item.None? {
        return false;
      }
      PushT(item.value);
      return true;
    }

    method SetAt(index: int, item: T) returns (ok: bool)
      requires Valid()
      modifies this
      ensures Valid() && ok == Set(old(list), index, item).Some?
      ensures list == if ok then Set(old(list), index, item).value else old(list)
    {
      var i := index;
      if i >= size {
        return false;
      }
      if i < 0 {
        i := i + size;
      }
      if i < 0 {
        return false;
      }
      list := list[size - i - 1 := item];
      return true;
    }
  }

  // ---- CALL_EDT on its stacks ----------------------------------------------------------------

  /**
   * What CALL_EDT does to its stacks once it has counted `pcount` items: the hash is popped and the arguments
   * are copied to the new frame, whose counter is right exactly when there was an item more than arguments.
   */
  method CallDynamicTail<T>(estack: Stack<T>, callee: Stack<T>, pcount: nat) returns (hash: T)
    requires estack.Valid() && callee.Valid() && callee.list == [] && callee != estack
    requires 0 < estack.size && pcount <= estack.size
    modifies estack, callee
    ensures var before := old(estack.list);
      && hash == before[|before| - 1]
      && (callee.Valid() <==> pcount < |before|)
      && (pcount < |before| ==> callee.list == before[|before| - 1 - pcount..|before| - 1])
      && callee.size == pcount
      && (pcount == |before| ==> callee.list == if pcount >= 2 then [before[pcount - 2]] else [])
  {
    var popped := estack.Pop();
    hash := popped.value;
    estack.CopyTo(callee, pcount);
  }

  /**
   * Where isolation ends: a frame of counts (1, 1) that holds a hash and nothing else executes CALL_EDT (1, 1),
   * and the frame in its place returns at once. No item reaches the caller, but its counter says one more.
   */
  method MiscountedReturn<T>(caller: Stack<T>, estack: Stack<T>, callee: Stack<T>)
    requires caller.Valid() && estack.Valid() && callee.Valid() && |estack.list| == 1 && callee.list == []
    requires caller != estack && caller != callee && estack != callee
    modifies caller, estack, callee
    ensures caller.list == old(caller.list) && caller.size == old(caller.size) + 1
  {
    var hash := CallDynamicTail(estack, callee, 1);
    callee.CopyTo(caller, 1);
  }

  /**
   * The whole run on its stacks: a caller's CALL_I (1, 1) hands over its top item, the frame uses it as the
   * hash of a CALL_EDT (1, 1), and the frame in its place returns. The caller, who was to get one item for one,
   * has an item less and a counter that says otherwise.
   */
  method IsolationLost<T>(caller: Stack<T>)
    requires caller.Valid() && caller.list != []
    modifies caller
    ensures caller.list == old(caller.list)[..|old(caller.list)| - 1] && caller.size == old(caller.size)
  {
    var frame := new Stack<T>();
    var callee := new Stack<T>();
    caller.CopyTo(frame, 1);
    var handed := caller.Pop();
    MiscountedReturn(caller, frame, callee);
  }

  // ---- laws of the indexed operations --------------------------------------------------------

  /** SWAP, ROT and ROLL are `push(Remove(n))`: a rotation of the top n + 1 items, so nothing is lost. */
  lemma RollPermutes<T>(s: seq<T>, n: nat)
    requires n < |s|
    ensures Remove(s, n).Some? && Peek(s, n).Some?
    ensures var r := Remove(s, n).value + [Peek(s, n).value];
      multiset(r) == multiset(s) && Remove(r, 0).value[..|s| - 1 - n] == s[..|s| - 1 - n]
  {
    var p := |s| - 1 - n;
    assert s == s[..p] + [s[p]] + s[p + 1..];
  }

  /** An insert `n` below the top is read back by a peek at `n` and undone by a removal at `n`. */
  lemma InsertThenRemove<T>(s: seq<T>, n: nat, item: T)
    requires n <= |s|
    ensures Insert(s, n, item).Some? && Peek(Insert(s, n, item).value, n) == Some(item)
    ensures Remove(Insert(s, n, item).value, n) == Some(s)
  {
    var t := Insert(s, n, item).value;
    assert t[..|s| - n] == s[..|s| - n] && t[|s| - n + 1..] == s[|s| - n..];
    assert s[..|s| - n] + s[|s| - n..] == s;
  }
}
