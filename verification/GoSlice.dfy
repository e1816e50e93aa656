// Go slices: a window onto a backing array that several slices may share. Appending
// writes into spare capacity when there is some, and otherwise moves to a new array.
module GoSlice {

  datatype Slice<T> = Slice(arr: array<T>, off: nat, len: nat, cap: nat)
  {
    predicate Ok() {
      len <= cap && off + cap <= arr.Length
    }

    ghost function Elems(): seq<T>
      requires Ok()
      reads arr
    {
      arr[off..off + len]
    }

    // s[n:] keeps the array and gives up the front.
    function Drop(n: nat): Slice<T>
      requires Ok() && n <= len
    {
      Slice(arr, off + n, len - n, cap - n)
    }
  }

  // append(s, x). How much a reallocation reserves is left open.
  method Append<T>(s: Slice<T>, x: T) returns (r: Slice<T>)
    requires s.Ok()
    modifies s.arr
    ensures r.Ok() && r.Elems() == old(s.Elems()) + [x]
    ensures if s.len < s.cap then r == s.(len := s.len + 1) else fresh(r.arr) && r.off == 0
    ensures forall i :: 0 <= i < s.arr.Length && i != s.off + s.len ==> s.arr[i] == old(s.arr[i])
    ensures s.len == s.cap ==> s.arr[..] == old(s.arr[..])
  {
    if s.len < s.cap {
      s.arr[s.off + s.len] := x;
      r := s.(len := s.len + 1);
    } else {
      var cap: nat :| s.len < cap;
      var elems := s.arr[s.off..s.off + s.len];
      var arr := new T[cap](i => if 0 <= i < |elems| then elems[i] else x);
      r := Slice(arr, 0, s.len + 1, cap);
      assert arr[..s.len] == elems;
    }
  }

  function LastN<T>(s: seq<T>, n: nat): seq<T> {
    if |s| <= n then s else s[|s| - n..]
  }

  lemma LastNSnoc<T>(s: seq<T>, x: T, n: nat)
    requires 0 < n
    ensures LastN(s + [x], n) == LastN(LastN(s, n) + [x], n)
  {
  }

  // A slice variable used as a sliding window: append, then re-slice from the front.
  // `log` is everything ever pushed; `issued` are the copies of the slice handed out,
  // each with what it showed at the time.
  class Window<T> {
    const max: nat
    var s: Slice<T>
    ghost var log: seq<T>
    ghost var issued: map<Slice<T>, seq<T>>
    ghost var arrays: set<array<T>>

    ghost predicate Valid()
      reads this, arrays
    {
      0 < max && s.Ok() && s.arr in arrays && s.Elems() == LastN(log, max) && IssuedOk()
    }

    constructor (max: nat)
      requires 0 < max
      ensures Valid() && log == [] && issued == map[] && this.max == max && fresh(arrays)
    {
      this.max := max;
      var arr := new T[0];
      s := Slice(arr, 0, 0, 0);
      log, issued, arrays := [], map[], {arr};
    }

    // What the issued copies need from the current slice.
    ghost predicate IssuedOk()
      reads this, arrays
    {
      forall v :: v in issued ==>
        v.Ok() && v.arr in arrays && v.Elems() == issued[v] && (v.arr == s.arr ==> v.off + v.len <= s.off + s.len)
    }

    // append: it writes at most the cell after the slice, which no issued copy covers.
    method Grow(x: T)
      requires s.Ok() && s.arr in arrays && IssuedOk()
      modifies this`s, this`arrays, s.arr
      ensures s.Ok() && s.arr in arrays && s.Elems() == old(s.Elems()) + [x] && IssuedOk()
      ensures forall v :: v in issued ==> v.Elems() == old(v.Elems())
      ensures old(arrays) <= arrays && fresh(arrays - old(arrays))
    {
      var r := Append(s, x);
      forall v | v in issued ensures v.Elems() == old(v.Elems()) {
        assert forall i :: v.off <= i < v.off + v.len ==> v.arr[i] == old(v.arr[i]);
      }
      arrays := arrays + {r.arr};
      s := r;
    }

    // Re-slice to the last max elements.
    method Trim()
      requires 0 < max && s.Ok() && s.arr in arrays && IssuedOk()
      modifies this`s
      ensures s.Ok() && s.arr == old(s.arr) && s.Elems() == LastN(old(s.Elems()), max) && IssuedOk()
    {
      if s.len > max {
        s := s.Drop(s.len - max);
      }
    }

    // No push changes what an issued copy shows, although they share the array.
    method Push(x: T)
      requires Valid()
      modifies this`s, this`arrays, this`log, s.arr
      ensures Valid() && log == old(log) + [x]
      ensures forall v :: v in issued ==> v.Elems() == old(v.Elems())
      ensures old(arrays) <= arrays && fresh(arrays - old(arrays))
    {
      LastNSnoc(log, x, max);
      Grow(x);
      Trim();
      log := log + [x];
    }

    method Share() returns (v: Slice<T>)
      requires Valid()
      modifies this`issued
      ensures Valid() && v == s && v.Elems() == LastN(log, max)
      ensures issued == old(issued)[v := v.Elems()]
    {
      v := s;
      issued := issued[v := v.Elems()];
    }
  }
}
