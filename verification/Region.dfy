/** The region: a bump allocator that hands out memory from the top of a buffer downwards. */
module Region {
  import opened Words

  const ALIGN: nat := 8

  /** The addresses [mem, offs) are still to be handed out. */
  datatype State = State(mem: nat, offs: nat, size: nat)

  predicate Sound(r: State) {
    r.mem <= r.offs <= r.mem + r.size < TWO64
  }

  /** The address handed out for `size` bytes, if any. Address arithmetic is modulo 2^64. */
  function Serve(r: State, size: nat): Option<nat> {
    if r.mem == 0 || size == 0 || size > r.size then None
    else
      var lowered := (r.offs - AlignSize(size, ALIGN)) % TWO64;
      if lowered < r.mem then None else Some(lowered)
  }

  /** The request is met from the free part when it fits there, and refused when it does not. */
  predicate ServedRight(r: State, size: nat) {
    var n := AlignSize(size, ALIGN);
    Serve(r, size) == if 0 < size && n <= r.offs - r.mem && size <= r.size then Some(r.offs - n) else None
  }

  /** A request that the size check lets through is met right exactly when the subtraction does not pass below
      address zero: buffers that start lower than they are long can be overrun. */
  lemma RightUnlessBelowZero(r: State, size: nat)
    requires Sound(r) && r.mem >= ALIGN && 0 < size <= r.size
    ensures ServedRight(r, size) <==> AlignSize(size, ALIGN) <= r.offs
  {
    Lowered(r.offs, AlignSize(size, ALIGN));
  }

  lemma Lowered(offs: nat, n: nat)
    requires offs < TWO64 && n < TWO64
    ensures (offs - n) % TWO64 == if n <= offs then offs - n else offs - n + TWO64
  {
    if n <= offs {
      ModUnique(offs - n, TWO64, 0, offs - n);
    } else {
      ModUnique(offs - n, TWO64, -1, offs - n + TWO64);
    }
  }

  /** Long buffers low in memory do fail. */
  lemma LowBufferOverrun()
    ensures var r := State(64, 128, 4096);
            Sound(r) && 4096 <= r.size && !ServedRight(r, 4096)
  {
    RightUnlessBelowZero(State(64, 128, 4096), 4096);
  }

  /** A buffer that starts above its own length is always served right. */
  lemma HighBuffersServedRight(r: State, size: nat)
    requires Sound(r) && r.size + ALIGN <= r.mem
    ensures ServedRight(r, size)
  {
    if 0 < size <= r.size {
      RightUnlessBelowZero(r, size);
    }
  }

  class Region {
    var mem: nat
    var offs: nat
    var size: nat

    function TheState(): State
      reads this
    {
      State(mem, offs, size)
    }

    constructor FromBuffer(buf: nat, size: nat)
      ensures TheState() == if size == 0 then State(0, 0, 0) else State(buf, buf + size, size)
    {
      if size == 0 {
        this.size, mem, offs := 0, 0, 0;
      } else {
        this.size, mem, offs := size, buf, buf + size;
      }
    }

    /** 0 when the request is refused, and then nothing changes. */
    method Alloc(bytes: nat) returns (ptr: nat)
      requires Sound(TheState())
      modifies this
      ensures var r := old(TheState());
              && ptr == Serve(r, bytes).GetOr(0)
              && TheState() == match Serve(r, bytes) case Some(p) => r.(offs := p) case None => r
    {
      if mem == 0 || bytes == 0 || bytes > size {
        return 0;
      }
      var allocSize := AlignSize(bytes, ALIGN);
      if (offs - allocSize) % TWO64 < mem {
        return 0;
      }
      offs := (offs - allocSize) % TWO64;
      return offs;
    }

    method Remaining() returns (n: nat)
      requires Sound(TheState())
      ensures n == offs - mem
    {
      n := offs - mem;
    }
  }
}
