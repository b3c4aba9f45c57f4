/** Optional values, results, and keeping the present entries of a sequence. */
module Wrappers {

  /** A value that may be absent: JavaScript's `null`/`undefined` become `None`. */
  datatype Option<+T> = None | Some(value: T) {

    /** The value, or `default` when absent. */
    function GetOr(default: T): T {
      match this
      case Some(v) => v
      case None => default
    }
  }

  /** A computation that either returns a value or rejects with an error. */
  datatype Result<+T, +E> = Ok(value: T) | Err(error: E)

  /** How many entries of `s` are present. */
  function CountSome<T>(s: seq<Option<T>>): (n: nat)
    ensures n <= |s|
  {
    if s == [] then 0 else (if s[0].Some? then 1 else 0) + CountSome(s[1..])
  }

  /** The present entries of `s`, in order: JavaScript's `xs.filter(Boolean)` over
      an array whose entries are objects or `null`. */
  function Somes<T>(s: seq<Option<T>>): (r: seq<T>)
    ensures |r| == CountSome(s) <= |s|
    ensures forall k :: 0 <= k < |r| ==> Some(r[k]) in s
  {
    if s == [] then []
    else
      var rest := Somes(s[1..]);
      assert forall k :: 0 <= k < |rest| ==> Some(rest[k]) in s by {
        forall k | 0 <= k < |rest| ensures Some(rest[k]) in s {
          assert Some(rest[k]) in s[1..];
        }
      }
      if s[0].Some? then [s[0].value] + rest else rest
  }

  /** Counting the present entries of a longer prefix never gives less, and the
      entry at `i` adds one exactly when it is present. */
  lemma {:induction false} CountSomeStep<T>(s: seq<Option<T>>, i: nat)
    requires i < |s|
    ensures CountSome(s[..i + 1]) == CountSome(s[..i]) + (if s[i].Some? then 1 else 0)
  {
    if i > 0 {
      assert s[..i + 1][1..] == s[1..][..i];
      assert s[..i][1..] == s[1..][..i - 1];
      CountSomeStep(s[1..], i - 1);
    } else {
      assert s[..1][1..] == [];
    }
  }

  /** The present entry at position `i` is kept, at position "number of present
      entries before `i`" of the result. Together with `CountSomeStep` this says
      the result lists every present entry, in the original order. */
  lemma {:induction false} SomesAt<T>(s: seq<Option<T>>, i: nat)
    requires i < |s| && s[i].Some?
    ensures CountSome(s[..i]) < |Somes(s)|
    ensures Somes(s)[CountSome(s[..i])] == s[i].value
  {
    if i == 0 {
      assert s[..0] == [];
    } else {
      assert s[..i][1..] == s[1..][..i - 1];
      SomesAt(s[1..], i - 1);
    }
  }

  /** Present entries at positions `i < j` keep their order in the result. */
  lemma SomesOrder<T>(s: seq<Option<T>>, i: nat, j: nat)
    requires i < j < |s| && s[i].Some? && s[j].Some?
    ensures CountSome(s[..i]) < CountSome(s[..j]) < |Somes(s)|
    ensures Somes(s)[CountSome(s[..i])] == s[i].value
    ensures Somes(s)[CountSome(s[..j])] == s[j].value
  {
    CountSomeStep(s, i);
    CountSomeMonotone(s, i + 1, j);
    SomesAt(s, i);
    SomesAt(s, j);
  }

  /** Counting over a longer prefix never gives less. */
  lemma {:induction false} CountSomeMonotone<T>(s: seq<Option<T>>, i: nat, j: nat)
    requires i <= j <= |s|
    ensures CountSome(s[..i]) <= CountSome(s[..j])
    decreases j - i
  {
    if i < j {
      CountSomeStep(s, j - 1);
      CountSomeMonotone(s, i, j - 1);
    }
  }

  /** One present entry is enough for a non-empty result. */
  lemma SomesNonEmpty<T>(s: seq<Option<T>>, i: nat)
    requires i < |s| && s[i].Some?
    ensures |Somes(s)| > 0
  {
    SomesAt(s, i);
  }
}
