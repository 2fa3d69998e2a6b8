// The pipe of src/fs/pipe.c: a buffer with one pointer that is both the fill
// level and the place of the next write.
module Pipes {
  import opened Bytes
  import KernelUtil
  import opened Common

  // The buffer and its fill level.
  datatype State = State(mem: seq<byte>, ptr: nat)

  predicate Valid(p: State) {
    p.ptr <= |p.mem|
  }

  function Fill(p: State): seq<byte>
    requires Valid(p)
  {
    p.mem[..p.ptr]
  }

  function Push(p: State, data: seq<byte>): (q: State)
    requires Valid(p)
    ensures Valid(q) && |q.mem| == |p.mem|
  {
    if |p.mem| - p.ptr < |data| then p
    else State(Put(p.mem, p.ptr, data), p.ptr + |data|)
  }

  // What a read of n bytes returns.
  function Taken(p: State, n: nat): seq<byte>
    requires Valid(p)
  {
    p.mem[..if n < p.ptr then n else p.ptr]
  }

  // A read that does not drain the pipe moves the rest to the front, but leaves
  // the fill level as it was.
  function Pull(p: State, n: nat): (q: State)
    requires Valid(p)
    ensures Valid(q) && |q.mem| == |p.mem|
  {
    if p.ptr <= n then State(p.mem, 0)
    else State(Put(p.mem, 0, p.mem[n..p.ptr]), p.ptr)
  }

  // ----- Properties of one call

  lemma {:induction false} WriteAppends(p: State, data: seq<byte>)
    requires Valid(p)
    ensures Fill(Push(p, data)) == Fill(p) + if |p.mem| - p.ptr < |data| then [] else data
  {
  }

  // A read delivers the first n bytes held, or all when there are less, and then
  // leaves nothing.
  lemma {:induction false} ReadDelivers(p: State, n: nat)
    requires Valid(p)
    ensures Taken(p, n) == Fill(p)[..if n < |Fill(p)| then n else |Fill(p)|]
    ensures |Fill(p)| <= n ==> Taken(p, n) == Fill(p) && Fill(Pull(p, n)) == []
    ensures n < |Fill(p)| ==> |Fill(Pull(p, n))| == |Fill(p)| && Fill(Pull(p, n))[..|Fill(p)| - n] == Fill(p)[n..]
  {
    if n < p.ptr {
      var q := Pull(p, n);
      assert q.mem[..p.ptr - n] == p.mem[n..p.ptr];
      assert Fill(q)[..p.ptr - n] == q.mem[..p.ptr - n];
    }
  }

  // After a partial read of n bytes the rest of the data is followed by a
  // second copy of the last n bytes.
  lemma {:induction false} PartialRead(p: State, n: nat)
    requires Valid(p) && n < p.ptr
    ensures Taken(p, n) + Fill(Pull(p, n)) == Fill(p) + Fill(p)[p.ptr - n..]
  {
    var rest, last := p.mem[n..p.ptr], p.mem[p.ptr - n..p.ptr];
    assert Pull(p, n).mem == rest + p.mem[p.ptr - n..];
    assert Fill(Pull(p, n)) == rest + last;
    assert Taken(p, n) + rest == Fill(p) && last == Fill(p)[p.ptr - n..];
    Associates(Taken(p, n), rest, last);
  }

  lemma {:induction false} Associates(a: seq<byte>, b: seq<byte>, c: seq<byte>)
    ensures a + (b + c) == (a + b) + c
  {
  }

  // A read takes its bytes out of the pipe exactly when it drains the pipe.
  lemma {:induction false} DrainsExactly(p: State, n: nat)
    requires Valid(p) && n > 0
    ensures Fill(p) == Taken(p, n) + Fill(Pull(p, n)) <==> p.ptr <= n
  {
    if n < p.ptr { assert |Fill(p)| < |Taken(p, n) + Fill(Pull(p, n))|; }
  }

  // ----- Runs

  datatype Event = Wrote(data: seq<byte>) | Got(n: nat)

  function After(p: State, es: seq<Event>): (q: State)
    requires Valid(p)
    ensures Valid(q) && |q.mem| == |p.mem|
  {
    if es == [] then p else
      var q := After(p, es[..|es| - 1]);
      match es[|es| - 1]
      case Wrote(data) => Push(q, data)
      case Got(n) => Pull(q, n)
  }

  // All bytes that the writes of the run put in.
  function Written(p: State, es: seq<Event>): seq<byte>
    requires Valid(p)
  {
    if es == [] then [] else
      var q := After(p, es[..|es| - 1]);
      Written(p, es[..|es| - 1]) +
      match es[|es| - 1]
      case Wrote(data) => if |q.mem| - q.ptr < |data| then [] else data
      case Got(n) => []
  }

  // All bytes that the reads of the run returned.
  function Returned(p: State, es: seq<Event>): seq<byte>
    requires Valid(p)
  {
    if es == [] then [] else
      var q := After(p, es[..|es| - 1]);
      Returned(p, es[..|es| - 1]) +
      match es[|es| - 1]
      case Wrote(data) => []
      case Got(n) => Taken(q, n)
  }

  // Every read of the run asks for at least what the pipe holds.
  predicate Drains(p: State, es: seq<Event>)
    requires Valid(p)
  {
    es == [] ||
    var rest := es[..|es| - 1];
    Drains(p, rest) && (es[|es| - 1].Got? ==> After(p, rest).ptr <= es[|es| - 1].n)
  }

  predicate Asks(es: seq<Event>) {
    forall e :: e in es && e.Got? ==> e.n > 0
  }

  lemma {:induction false} Middle(a: seq<byte>, b: seq<byte>, c: seq<byte>, d: seq<byte>, x: seq<byte>)
    requires a + b == c + d
    ensures a + (b + x) == c + (d + x)
  {
    assert a + (b + x) == (a + b) + x && c + (d + x) == (c + d) + x;
  }

  lemma {:induction false} InOrder(p: State, es: seq<Event>)
    requires Valid(p) && Drains(p, es)
    ensures Fill(p) + Written(p, es) == Returned(p, es) + Fill(After(p, es))
  {
    if es != [] {
      var rest := es[..|es| - 1];
      InOrder(p, rest);
      match es[|es| - 1]
      case Wrote(data) =>
        WriteAppends(After(p, rest), data);
        Middle(Fill(p), Written(p, rest), Returned(p, rest), Fill(After(p, rest)), Written(p, es)[|Written(p, rest)|..]);
      case Got(n) =>
        assert Taken(After(p, rest), n) == Fill(After(p, rest));
    }
  }

  // Every partial read adds bytes that nobody wrote, and nothing removes them.
  lemma {:induction false} NeverLoses(p: State, es: seq<Event>)
    requires Valid(p) && Asks(es)
    ensures |Fill(p)| + |Written(p, es)| <= |Returned(p, es)| + |Fill(After(p, es))|
    ensures !Drains(p, es) ==> |Fill(p)| + |Written(p, es)| < |Returned(p, es)| + |Fill(After(p, es))|
  {
    if es != [] {
      var rest := es[..|es| - 1];
      NeverLoses(p, rest);
      match es[|es| - 1]
      case Wrote(data) => WriteAppends(After(p, rest), data);
      case Got(n) => assert es[|es| - 1] in es;
    }
  }

  // Main result: over every run, the bytes read and the bytes still in the pipe
  // are the bytes written, in order, exactly when every read drained the pipe.
  // Behind a read of such a run the pipe is empty, and all that was written so
  // far has been returned.
  lemma {:induction false} FifoExactly(p: State, es: seq<Event>)
    requires Valid(p) && Fill(p) == [] && Asks(es)
    ensures Written(p, es) == Returned(p, es) + Fill(After(p, es)) <==> Drains(p, es)
    ensures Drains(p, es) && es != [] && es[|es| - 1].Got? ==>
      Fill(After(p, es)) == [] && Returned(p, es) == Written(p, es)
  {
    if Drains(p, es) && es != [] && es[|es| - 1].Got? {
      ReadDelivers(After(p, es[..|es| - 1]), es[|es| - 1].n);
      assert Returned(p, es) + [] == Returned(p, es);
    }
    if Drains(p, es) {
      InOrder(p, es);
      assert Fill(p) + Written(p, es) == Written(p, es);
    } else {
      NeverLoses(p, es);
    }
  }

  // ----- The pipe object

  // struct pipe
  class Pipe {
    const mem: array<byte>
    var ptr: nat

    ghost predicate Good()
      reads this, mem
    {
      Valid(View())
    }

    ghost function View(): State
      reads this, mem
    {
      State(mem[..], ptr)
    }

    // pipe_create
    constructor (size: nat)
      requires size > 0
      ensures Good() && View().ptr == 0 && |View().mem| == size && fresh(mem)
    {
      mem := new byte[size](_ => 0);
      ptr := 0;
    }

    // __read: no buffer is null.
    method Read(size: nat, buffer: array?<byte>) returns (r: int)
      requires Good() && buffer != mem && (buffer != null ==> size <= buffer.Length)
      modifies this`ptr, mem, if buffer == null then {} else {buffer}
      ensures Good()
      ensures if buffer == null || size == 0 then r == -EINVAL && View() == old(View()) else
        && r == |Taken(old(View()), size)|
        && buffer[..] == Put(old(buffer[..]), 0, Taken(old(View()), size))
        && View() == Pull(old(View()), size)
    {
      if buffer == null || size == 0 { return -EINVAL; }
      if ptr == 0 { return 0; }
      var nread := if size < ptr then size else ptr;
      KernelUtil.Kmemcpy(buffer, 0, mem, 0, nread);
      if size >= ptr {
        ptr := 0;
      } else {
        KernelUtil.Kmemmove(mem, 0, size, ptr - nread);
        ptr := size + ptr - nread;
      }
      r := nread;
    }

    // __write
    method Write(size: nat, buffer: array?<byte>) returns (r: int)
      requires Good() && buffer != mem && (buffer != null ==> size <= buffer.Length)
      modifies this`ptr, mem
      ensures Good()
      ensures if buffer == null || size == 0 then r == -EINVAL && View() == old(View()) else
        && r == (if mem.Length - old(ptr) < size then -ENOSPC else size)
        && View() == Push(old(View()), buffer[..size])
    {
      if buffer == null || size == 0 { return -EINVAL; }
      if mem.Length - ptr < size { return -ENOSPC; }
      KernelUtil.Kmemcpy(mem, ptr, buffer, 0, size);
      ptr := ptr + size;
      r := size;
    }
  }
}
