/** The slide queue as a sequence, front first, and the sequence operations
    the slider's handlers perform on it. */
module SlideQueue {

  /** Advance: the front slide moves to the back. */
  function RotateLeft<T>(q: seq<T>): (r: seq<T>)
    requires |q| > 0
    ensures |r| == |q| && multiset(r) == multiset(q)
  {
    assert q == [q[0]] + q[1..];
    q[1..] + [q[0]]
  }

  /** Retreat: the back slide moves to the front. The slider never does this;
      it is the inverse against which advancing is checked. */
  function RotateRight<T>(q: seq<T>): (r: seq<T>)
    requires |q| > 0
    ensures |r| == |q| && multiset(r) == multiset(q)
  {
    assert q == q[..|q| - 1] + [q[|q| - 1]];
    [q[|q| - 1]] + q[..|q| - 1]
  }

  /** The queue at drag start: a copy of the front slide appended at the back. */
  function Pad<T>(q: seq<T>): seq<T>
    requires |q| > 0
  {
    q + [q[0]]
  }

  /** `q.slice(0, q.length - 1)`: the last slide dropped; an empty queue stays empty. */
  function Trim<T>(q: seq<T>): seq<T> {
    if |q| == 0 then [] else q[..|q| - 1]
  }

  /** A queue that carries the copy `Pad` appends. */
  predicate IsPadded<T(==)>(q: seq<T>) {
    |q| >= 2 && q[|q| - 1] == q[0]
  }

  /** The array the handlers build with `.map((_, index) => index ===
      src.length - 1 ? src[0] : src[index + 1])` over the first `count`
      entries of `src`: every entry replaced by its successor in `src`,
      the last entry of `src` by its first. */
  function SuccessorMap<T>(src: seq<T>, count: nat): (r: seq<T>)
    requires count <= |src|
    ensures |r| == count
  {
    seq(count, i requires 0 <= i < count => if i == |src| - 1 then src[0] else src[i + 1])
  }

  // ---------------------------------------------------------------------

  /** After an advance, position `i` holds the slide that was one step behind it. */
  lemma RotateLeftAt<T>(q: seq<T>, i: nat)
    requires i < |q|
    ensures RotateLeft(q)[i] == q[(i + 1) % |q|]
  {
  }

  /** After a retreat, the slide at `i` has moved one step back, wrapping to the front. */
  lemma RotateRightAt<T>(q: seq<T>, i: nat)
    requires i < |q|
    ensures RotateRight(q)[(i + 1) % |q|] == q[i]
  {
  }

  lemma RotationsAreInverse<T>(q: seq<T>)
    requires |q| > 0
    ensures RotateRight(RotateLeft(q)) == q
    ensures RotateLeft(RotateRight(q)) == q
  {
  }

  /** Trimming undoes padding, and padding yields a padded queue one longer
      whose prefix is the original and whose last slide is the old front. */
  lemma TrimUndoesPad<T>(q: seq<T>)
    requires |q| > 0
    ensures Trim(Pad(q)) == q
    ensures |Pad(q)| == |q| + 1 && Pad(q)[..|q|] == q && Pad(q)[|q|] == q[0]
  {
  }

  /** A padded queue is exactly `Pad` of its trimmed self. */
  lemma PaddedIsPad<T>(q: seq<T>)
    requires IsPadded(q)
    ensures |Trim(q)| > 0 && Pad(Trim(q)) == q
  {
  }

  lemma PadIsPadded<T>(q: seq<T>)
    requires |q| > 0
    ensures IsPadded(Pad(q))
  {
  }

  /** Mapped over the whole queue, the successor map is the advance. */
  lemma SuccessorMapWhole<T>(q: seq<T>)
    requires |q| > 0
    ensures SuccessorMap(q, |q|) == RotateLeft(q)
  {
  }

  /** Mapped over all but the last entry, the wrap-around branch is never
      taken and the successor map simply drops the front. */
  lemma SuccessorMapTrimmed<T>(q: seq<T>)
    requires |q| > 0
    ensures SuccessorMap(q, |Trim(q)|) == q[1..]
  {
  }

  /** Dropping the front of the padded queue is the advance of the original. */
  lemma PadThenDropIsRotate<T>(q: seq<T>)
    requires |q| > 0
    ensures Pad(q)[1..] == RotateLeft(q)
  {
  }
}
