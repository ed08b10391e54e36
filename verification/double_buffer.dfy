/** The read/write pair behind every double-buffered simulation field. The
    source keeps two framebuffer objects in closure variables and `swap`
    exchanges them; here the pair is a value and `Swap` returns the exchanged
    pair. The halves themselves are never copied or modified. */
module DoubleBuffer {

  datatype Double<T> = Double(read: T, write: T)

  /** Exchanges which half is read and which is written. */
  function Swap<T>(d: Double<T>): (r: Double<T>)
    ensures r.read == d.write && r.write == d.read
  {
    Double(d.write, d.read)
  }

  /** The pair after `n` consecutive swaps. */
  function SwapN<T>(d: Double<T>, n: nat): Double<T>
    decreases n
  {
    if n == 0 then d else Swap(SwapN(d, n - 1))
  }

  /** Two swaps restore the original assignment. */
  lemma SwapInvolutive<T>(d: Double<T>)
    ensures Swap(Swap(d)) == d
  {
  }

  /** Only the parity of the number of swaps matters. */
  lemma {:induction false} SwapNParity<T>(d: Double<T>, n: nat)
    ensures SwapN(d, n) == if n % 2 == 0 then d else Swap(d)
    decreases n
  {
    if n > 0 {
      SwapNParity(d, n - 1);
    }
  }

  /** Swapping `m` times and then `n` times is swapping `m + n` times. */
  lemma {:induction false} SwapNAdd<T>(d: Double<T>, m: nat, n: nat)
    ensures SwapN(SwapN(d, m), n) == SwapN(d, m + n)
    decreases n
  {
    if n > 0 {
      SwapNAdd(d, m, n - 1);
    }
  }

  /** Any number of swaps keeps the same two halves. */
  lemma {:induction false} SwapNKeepsHalves<T>(d: Double<T>, n: nat)
    ensures {SwapN(d, n).read, SwapN(d, n).write} == {d.read, d.write}
    ensures d.read != d.write ==> SwapN(d, n).read != SwapN(d, n).write
  {
    SwapNParity(d, n);
  }
}
