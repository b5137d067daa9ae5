/** Slices over shared arrays: appending may write into the array it was given. */
module Slices {

  /** The first `len` of the `cap` cells usable in `arr`. A slice that was never
      allocated has no array. */
  datatype Slice<T> = Slice(arr: array?<T>, len: nat, cap: nat)

  ghost predicate Sound<T>(s: Slice<T>) {
    s.len <= s.cap <= if s.arr == null then 0 else s.arr.Length
  }

  function View<T>(s: Slice<T>): seq<T>
    requires Sound(s)
    reads s.arr
  {
    if s.arr == null then [] else s.arr[..s.len]
  }

  ghost predicate Fits<T>(s: Slice<T>, n: nat) {
    s.len + n <= s.cap
  }

  ghost function Cells<T>(s: Slice<T>): set<object> {
    if s.arr == null then {} else {s.arr as object}
  }

  method Make<T(0)>(cap: nat) returns (s: Slice<T>)
    ensures Sound(s) && View(s) == [] && fresh(Cells(s)) && s.cap == cap
  {
    var arr := new T[cap];
    s := Slice(arr, 0, cap);
  }

  /** Writes behind the slice if there is room, into the array shared with
      everyone who holds it; otherwise moves to a larger array, of a size that is
      not specified. */
  method Append<T(0)>(s: Slice<T>, xs: seq<T>) returns (r: Slice<T>)
    requires Sound(s)
    modifies if Fits(s, |xs|) then Cells(s) else {}
    ensures Sound(r) && View(r) == old(View(s)) + xs
    ensures if Fits(s, |xs|) then r.arr == s.arr && r.cap == s.cap else fresh(Cells(r))
    ensures r.len == s.len + |xs|
  {
    if s.len + |xs| <= s.cap {
      for i := 0 to |xs|
        invariant s.arr != null ==> s.arr[..s.len] == old(View(s))
        invariant s.arr != null ==> forall k :: 0 <= k < i ==> s.arr[s.len + k] == xs[k]
      {
        s.arr[s.len + i] := xs[i];
      }
      r := s.(len := s.len + |xs|);
    } else {
      var cap: nat :| s.len + |xs| <= cap;
      var arr := new T[cap];
      for i := 0 to s.len
        invariant s.arr != null ==> s.arr[..s.len] == old(View(s))
        invariant s.arr != null ==> forall k :: 0 <= k < i ==> arr[k] == s.arr[k]
      {
        arr[i] := s.arr[i];
      }
      for i := 0 to |xs|
        invariant arr[..s.len] == old(View(s))
        invariant forall k :: 0 <= k < i ==> arr[s.len + k] == xs[k]
      {
        arr[s.len + i] := xs[i];
      }
      r := Slice(arr, s.len + |xs|, cap);
    }
  }
}
