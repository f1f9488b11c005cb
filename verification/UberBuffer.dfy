/** The ring buffer of uber-buffer.c as an object over an array, proved to be the ring of module Rings. */
module UberBuffers {
  import R = Rings

  type Val = R.Val

  class UberBuffer {
    var buffer: array<Val>
    var len: nat
    var pos: nat

    ghost predicate Valid()
      reads this
    {
      len == buffer.Length && pos < len
    }

    function Value(): R.Ring
      reads this, buffer
    {
      R.Ring(buffer[..], pos)
    }

    constructor ()
      ensures Valid() && fresh(buffer) && Value() == R.New()
      ensures len == 64 && pos == 0 && forall k | 0 <= k < 64 :: buffer[k] == R.NegInf
    {
      buffer := new Val[R.DEFAULT_SIZE];
      len, pos := R.DEFAULT_SIZE, 0;
      new;
      ClearRange(0, R.DEFAULT_SIZE);
      assert buffer[..] == R.Blanks(R.DEFAULT_SIZE);
    }

    /** `uber_buffer_clear_range` */
    method ClearRange(begin: nat, end: nat)
      requires begin <= end <= buffer.Length
      modifies buffer
      ensures buffer[..] == R.Cleared(old(buffer[..]), begin, end)
    {
      var i := begin;
      while i < end
        invariant begin <= i <= end
        invariant forall k | 0 <= k < buffer.Length ::
          buffer[k] == if begin <= k < i then R.NegInf else old(buffer[k])
      {
        buffer[i] := R.NegInf;
        i := i + 1;
      }
    }

    /** `memmove` within the buffer. */
    method Move(dst: nat, src: nat, count: nat)
      requires dst + count <= buffer.Length && src + count <= buffer.Length
      modifies buffer
      ensures buffer[..] == R.Moved(old(buffer[..]), dst, src, count)
    {
      forall k | dst <= k < dst + count {
        buffer[k] := buffer[k - dst + src];
      }
      assert buffer[dst..dst + count] == old(buffer[src..src + count]);
    }

    /** `g_realloc` keeps what fits; what is new is arbitrary, and here minus infinity. */
    method Realloc(size: nat)
      modifies this`buffer
      ensures fresh(buffer) && buffer.Length == size
      ensures buffer[..] ==
        if size <= old(buffer).Length then old(buffer[..])[..size]
        else old(buffer[..]) + R.Blanks(size - old(buffer).Length)
    {
      var longer := new Val[size](_ => R.NegInf);
      var i := 0;
      while i < size && i < buffer.Length
        invariant 0 <= i <= size && i <= buffer.Length && buffer == old(buffer) && fresh(longer)
        invariant forall k | 0 <= k < size :: longer[k] == if k < i then buffer[k] else R.NegInf
        invariant buffer[..] == old(buffer[..])
      {
        longer[i] := buffer[i];
        i := i + 1;
      }
      buffer := longer;
    }

    method Append(value: Val)
      requires Valid()
      modifies this`pos, buffer
      ensures Valid() && Value() == R.Append(old(Value()), value)
    {
      buffer[pos] := value;
      pos := pos + 1;
      if pos >= len {
        pos := 0;
      }
    }

    method GetIndex(idx: nat) returns (value: Val)
      requires Valid()
      ensures value == R.GetIndex(Value(), idx)
    {
      if idx >= len {
        return R.NegInf;
      }
      if pos > idx {
        return buffer[pos - idx - 1];
      }
      var i := idx - pos;
      value := buffer[len - i - 1];
    }

    /** Shrinking to exactly the position leaves it outside the buffer and the buffer invalid; nothing else does. */
    method SetSize(size: nat)
      requires Valid() && size > 0
      modifies this, buffer
      ensures len == size == buffer.Length && Value() == R.SetSize(old(Value()), size)
      ensures Valid() <==> !(size < old(len) && size == old(pos))
      ensures buffer == old(buffer) || fresh(buffer)
    {
      hide R.Moved, R.Grow;
      if size == len {
        return;
      }
      if size > len {
        Grow(size);
        return;
      }
      if size >= pos {
        Move(pos, size, len - size);
        Realloc(size);
        len := size;
        return;
      }
      Move(0, pos - size, size);
      Realloc(size);
      pos := 0;
      len := size;
    }

    /** The branch of `uber_buffer_set_size` for a larger size. */
    method Grow(size: nat)
      requires Valid() && size > len
      modifies this`buffer, this`len, buffer
      ensures Valid() && fresh(buffer) && Value() == R.Grow(old(Value()), size)
    {
      hide R.Cleared, R.Moved;
      R.ClearedBlanks(buffer[..], size - len);
      Realloc(size);
      ClearRange(len, size);
      var count := len - pos;
      if count != 0 {
        Move(size - count, pos, count);
        if size - count > pos {
          ClearRange(0, size - count - pos);
        }
      }
      len := size;
    }

    /** `uber_buffer_foreach`: calls `f` on the values, newest first, until it answers true. */
    method Foreach(f: Val -> bool) returns (visited: seq<Val>)
      requires Valid()
      ensures visited <= R.Recent(Value())
      ensures forall i | 0 <= i < |visited| - 1 :: !f(visited[i])
      ensures |visited| < len ==> visited != [] && f(visited[|visited| - 1])
    {
      hide R.Recent;
      visited := [];
      var done := false;
      var i := pos - 1;
      while i >= 0 && !done
        invariant -1 <= i < pos
        invariant visited <= R.Recent(Value()) && (!done ==> |visited| == pos - 1 - i)
        invariant forall k | 0 <= k < |visited| - 1 :: !f(visited[k])
        invariant visited != [] ==> (done <==> f(visited[|visited| - 1]))
        invariant done ==> visited != []
        decreases i + 1, if done then 0 else 1
      {
        R.SlotByAge(Value(), i);
        PrefixGrows(visited, R.Recent(Value()));
        visited := visited + [buffer[i]];
        if f(buffer[i]) {
          done := true;
        } else {
          i := i - 1;
        }
      }
      if !done {
        i := len - 1;
        while i >= pos && !done
          invariant pos - 1 <= i < len
          invariant visited <= R.Recent(Value()) && (!done ==> |visited| == pos + len - 1 - i)
          invariant forall k | 0 <= k < |visited| - 1 :: !f(visited[k])
          invariant visited != [] ==> (done <==> f(visited[|visited| - 1]))
          invariant done ==> visited != []
          decreases i - pos + 1, if done then 0 else 1
        {
          R.SlotByAge(Value(), i);
          PrefixGrows(visited, R.Recent(Value()));
          visited := visited + [buffer[i]];
          if f(buffer[i]) {
            done := true;
          } else {
            i := i - 1;
          }
        }
      }
    }
  }

  lemma PrefixGrows(prefix: seq<Val>, all: seq<Val>)
    requires prefix <= all && |prefix| < |all|
    ensures prefix + [all[|prefix|]] <= all
  {
  }
}
