/** The few pieces of Python's runtime behaviour the scripts rely on:
    a value that may be `None`, an exception that escapes a function,
    negative list indexing and `list.remove`. */
module Python {

  datatype Option<T> = None | Some(value: T)

  /** The exceptions the scripts can raise on unexpected tool output. */
  datatype PyError =
    | IndexError          // a list or split result indexed past its end
    | UnboundLocalError   // a local read before any assignment
    | EOFError            // `input()` when standard input is exhausted

  /** The result of a call that either returns a value or raises. */
  datatype Result<T> = Ok(value: T) | Raised(error: PyError)

  /** How a script ends: `exit(code)`, or an exception that no one catches
      (the interpreter then exits with status 1). */
  datatype Outcome = Exit(code: int) | Crash(error: PyError)

  /** `s[k]` with Python's indexing rules: a negative `k` counts from the end,
      anything outside `-|s| .. |s|-1` raises IndexError. */
  function PyIndex<T>(s: seq<T>, k: int): (r: Result<T>)
    ensures r.Ok? <==> -|s| <= k < |s|
    ensures r.Ok? ==> r.value == s[if k < 0 then |s| + k else k]
  {
    if 0 <= k < |s| then Ok(s[k])
    else if -|s| <= k < 0 then Ok(s[|s| + k])
    else Raised(IndexError)
  }

  /** Index of the first occurrence of `x` in `s` (|s| when there is none). */
  function FirstIndex<T(==)>(s: seq<T>, x: T): (i: nat)
    ensures i <= |s|
    ensures i < |s| ==> s[i] == x
    ensures forall j :: 0 <= j < i ==> s[j] != x
    ensures i == |s| <==> x !in s
  {
    if s == [] then 0
    else if s[0] == x then 0
    else 1 + FirstIndex(s[1..], x)
  }

  /** `if x in s: s.remove(x)`: drops the first occurrence of `x` only. */
  function RemoveFirst<T(==)>(s: seq<T>, x: T): (r: seq<T>)
  {
    var i := FirstIndex(s, x);
    if i == |s| then s else s[..i] + s[i + 1..]
  }

  /** `RemoveFirst` deletes exactly the first occurrence and keeps every other
      element in order: what is left before it is free of `x`. */
  lemma {:induction false} RemoveFirstShape<T>(s: seq<T>, x: T)
    ensures x !in s ==> RemoveFirst(s, x) == s
    ensures x in s ==> |RemoveFirst(s, x)| == |s| - 1
    ensures x in s ==> exists i :: 0 <= i < |s| && s[i] == x && x !in s[..i] &&
                                  RemoveFirst(s, x) == s[..i] + s[i + 1..]
  {
    var i := FirstIndex(s, x);
    if i < |s| {
      assert x !in s[..i] by {
        forall j | 0 <= j < i ensures s[..i][j] != x { }
      }
    }
  }

  /** Removing an element that occurs only at the end leaves the rest. */
  lemma RemoveFirstOfLast<T>(s: seq<T>, x: T)
    requires x !in s
    ensures RemoveFirst(s + [x], x) == s
  {
    var t := s + [x];
    assert forall j :: 0 <= j < |s| ==> t[j] == s[j];
    assert FirstIndex(t, x) == |s|;
    assert t[..|s|] == s;
  }
}
