/** Vocabulary shared by every layer: optional values, byte strings and
    concatenation of a sequence of pieces. */
module Common {

  datatype Option<+T> = None | Some(value: T)

  /** A block of bytes; one `char` stands for one byte. */
  type Bytes = seq<char>

  /** The two readiness conditions a socket can ask the kernel for. */
  datatype Poll = PollIn | PollOut

  function Max(a: int, b: int): int {
    if a < b then b else a
  }

  /** The pieces of `parts`, one after the other. */
  function Concat<T>(parts: seq<seq<T>>): seq<T> {
    if parts == [] then [] else parts[0] + Concat(parts[1..])
  }

  lemma AppendAssociates<T>(a: seq<T>, b: seq<T>, c: seq<T>)
    ensures (a + b) + c == a + (b + c)
  {
  }

  lemma {:induction false} ConcatAppend<T>(a: seq<seq<T>>, b: seq<seq<T>>)
    ensures Concat(a + b) == Concat(a) + Concat(b)
  {
    if a == [] {
      assert a + b == b;
      NothingBefore(Concat(b));
    } else {
      ConcatAppend(a[1..], b);
      ConcatUnfolds(a, b);
      AppendAssociates(a[0], Concat(a[1..]), Concat(b));
    }
  }

  lemma ConcatUnfolds<T>(a: seq<seq<T>>, b: seq<seq<T>>)
    requires a != []
    ensures Concat(a + b) == a[0] + Concat(a[1..] + b)
  {
    hide Concat;
    assert (a + b)[1..] == a[1..] + b;
    assert (a + b)[0] == a[0];
    ConcatFirst(a + b);
  }

  lemma ConcatFirst<T>(a: seq<seq<T>>)
    requires a != []
    ensures Concat(a) == a[0] + Concat(a[1..])
  {
  }

  lemma NothingBefore<T>(a: seq<T>)
    ensures [] + a == a
  {
  }

  lemma ConcatSnoc<T>(a: seq<seq<T>>, x: seq<T>)
    ensures Concat(a + [x]) == Concat(a) + x
  {
    ConcatAppend(a, [x]);
    assert Concat([x]) == x + Concat([x][1..]);
  }

  ghost predicate NoRepeats<T>(s: seq<T>) {
    forall i, j | 0 <= i < j < |s| :: s[i] != s[j]
  }

  /** `s` with `x` put in at position `k`. */
  function InsertAt<T>(s: seq<T>, k: nat, x: T): seq<T>
    requires k <= |s|
  {
    s[..k] + [x] + s[k..]
  }

  /** `s` without the element at position `k`. */
  function RemoveAt<T>(s: seq<T>, k: nat): seq<T>
    requires k < |s|
  {
    s[..k] + s[k + 1..]
  }

  /** Where an element stands in a sequence without repeats; its length if nowhere. */
  ghost function Position<T>(s: seq<T>, x: T): (k: nat)
    ensures k <= |s|
    ensures k < |s| ==> s[k] == x
    ensures k == |s| <==> x !in s
  {
    if s == [] then 0 else if s[0] == x then 0 else 1 + Position(s[1..], x)
  }

  lemma PositionIs<T>(s: seq<T>, k: nat)
    requires NoRepeats(s) && k < |s|
    ensures Position(s, s[k]) == k
  {
  }

  lemma InsertNoRepeats<T>(s: seq<T>, k: nat, x: T)
    requires NoRepeats(s) && k <= |s| && x !in s
    ensures NoRepeats(InsertAt(s, k, x))
  {
    var t := InsertAt(s, k, x);
    assert forall i | 0 <= i < |t| && i != k :: t[i] == s[if i < k then i else i - 1];
  }

  lemma NoRepeatsConcat<T>(a: seq<T>, b: seq<T>)
    requires NoRepeats(a) && NoRepeats(b) && forall x | x in a :: x !in b
    ensures NoRepeats(a + b)
  {
    forall i, j | 0 <= i < j < |a + b| ensures (a + b)[i] != (a + b)[j] {
      if i < |a| <= j {
        assert a[i] in a && b[j - |a|] in b;
      }
    }
  }

  lemma RemoveNoRepeats<T>(s: seq<T>, k: nat)
    requires NoRepeats(s) && k < |s|
    ensures NoRepeats(RemoveAt(s, k))
  {
    var t := RemoveAt(s, k);
    assert forall i | 0 <= i < |t| :: t[i] == s[if i < k then i else i + 1];
  }
}
