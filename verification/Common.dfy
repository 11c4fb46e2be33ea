/** What the other modules share. */
module Common {

  datatype Option<T> = None | Some(value: T)

  /** A place in the slot matrix of a DMA device: channel and user index. */
  type Slot = (nat, nat)

  /** Conservation over two stretches of a run composes: what was there and came in equals what went out and is left. */
  lemma Telescope<T>(a: seq<T>, i: seq<T>, i': seq<T>, o: seq<T>, b: seq<T>, o': seq<T>, c: seq<T>)
    requires a + i == o + b && b + i' == o' + c
    ensures a + (i + i') == (o + o') + c
  {
    calc {
      a + (i + i');
      (a + i) + i';
      o + (b + i');
      (o + o') + c;
    }
  }
}
