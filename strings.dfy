/** Byte strings as PHP handles them, and the splitting and joining the
    query builder relies on. A PHP string is a sequence of bytes; a byte is
    modelled as a character below 256 so that literals read naturally. */
module Strings {

  type Byte = c: char | c as int < 256

  type Bytes = seq<Byte>

  datatype Option<T> = None | Some(value: T)

  /** True when no element of `items` contains `sep`. */
  predicate FreeOf(sep: Byte, items: seq<Bytes>)
  {
    forall i :: 0 <= i < |items| ==> sep !in items[i]
  }

  /** PHP's implode(sep, items): the items with one `sep` between neighbours. */
  function Join(sep: Byte, items: seq<Bytes>): Bytes
  {
    if |items| == 0 then []
    else if |items| == 1 then items[0]
    else items[0] + [sep] + Join(sep, items[1..])
  }

  /** Number of occurrences of `c` in `s`. */
  function Count(c: Byte, s: Bytes): nat
  {
    if |s| == 0 then 0 else (if s[0] == c then 1 else 0) + Count(c, s[1..])
  }

  /** Cuts `s` at every `sep` (PHP's explode): the inverse of Join. */
  function Split(sep: Byte, s: Bytes): (r: seq<Bytes>)
    ensures |r| > 0
  {
    if |s| == 0 then [[]]
    else
      var rest := Split(sep, s[1..]);
      if s[0] == sep then [[]] + rest else [[s[0]] + rest[0]] + rest[1..]
  }

  /** Cuts `s` at its first `sep`; without one, all of `s` is the head. */
  function SplitFirst(sep: Byte, s: Bytes): (Bytes, Bytes)
  {
    if |s| == 0 then ([], [])
    else if s[0] == sep then ([], s[1..])
    else var (h, t) := SplitFirst(sep, s[1..]); ([s[0]] + h, t)
  }

  lemma {:induction false} CountAppend(c: Byte, x: Bytes, y: Bytes)
    ensures Count(c, x + y) == Count(c, x) + Count(c, y)
  {
    if |x| > 0 {
      assert (x + y)[1..] == x[1..] + y;
      CountAppend(c, x[1..], y);
    } else {
      assert x + y == y;
    }
  }

  lemma {:induction false} CountAbsent(c: Byte, s: Bytes)
    ensures Count(c, s) == 0 <==> c !in s
  {
    if |s| > 0 {
      CountAbsent(c, s[1..]);
      assert s == [s[0]] + s[1..];
    }
  }

  /** Joining a non-empty list and then one more item puts one `sep` before it. */
  lemma {:induction false} JoinAppend(sep: Byte, items: seq<Bytes>, x: Bytes)
    requires |items| > 0
    ensures Join(sep, items + [x]) == Join(sep, items) + [sep] + x
  {
    if |items| == 1 {
      assert items + [x] == [items[0], x];
      assert (items + [x])[1..] == [x];
    } else {
      assert (items + [x])[1..] == items[1..] + [x];
      JoinAppend(sep, items[1..], x);
    }
  }

  /** implode gives "" exactly for no items or for a single empty item. */
  lemma {:induction false} JoinEmptyIff(sep: Byte, items: seq<Bytes>)
    ensures Join(sep, items) == [] <==> |items| == 0 || (|items| == 1 && items[0] == [])
  {
    if |items| >= 2 {
      assert Join(sep, items)[|items[0]|] == sep;
    }
  }

  /** Joining `n` items free of `sep` writes exactly `n - 1` separators. */
  lemma {:induction false} CountJoin(sep: Byte, items: seq<Bytes>)
    requires |items| > 0 && FreeOf(sep, items)
    ensures Count(sep, Join(sep, items)) == |items| - 1
  {
    CountAbsent(sep, items[0]);
    if |items| > 1 {
      CountJoin(sep, items[1..]);
      CountAppend(sep, items[0] + [sep], Join(sep, items[1..]));
      CountAppend(sep, items[0], [sep]);
    }
  }

  lemma {:induction false} SplitFree(sep: Byte, x: Bytes)
    requires sep !in x
    ensures Split(sep, x) == [x]
  {
    if |x| > 0 {
      SplitFree(sep, x[1..]);
      assert [x[0]] + x[1..] == x;
    }
  }

  lemma {:induction false} SplitAt(sep: Byte, x: Bytes, y: Bytes)
    requires sep !in x
    ensures Split(sep, x + [sep] + y) == [x] + Split(sep, y)
  {
    if |x| == 0 {
      assert x + [sep] + y == [sep] + y;
      assert ([sep] + y)[1..] == y;
    } else {
      assert (x + [sep] + y)[1..] == x[1..] + [sep] + y;
      SplitAt(sep, x[1..], y);
      assert [x[0]] + x[1..] == x;
    }
  }

  /** explode(sep, implode(sep, items)) == items when no item holds `sep`. */
  lemma {:induction false} SplitJoin(sep: Byte, items: seq<Bytes>)
    requires |items| > 0 && FreeOf(sep, items)
    ensures Split(sep, Join(sep, items)) == items
  {
    if |items| == 1 {
      SplitFree(sep, items[0]);
    } else {
      SplitAt(sep, items[0], Join(sep, items[1..]));
      SplitJoin(sep, items[1..]);
      assert [items[0]] + items[1..] == items;
    }
  }

  /** Cutting `x + [sep] + y` at the first `sep` gives back `x` and `y`
      when `x` holds no `sep`. */
  lemma {:induction false} SplitFirstAt(sep: Byte, x: Bytes, y: Bytes)
    requires sep !in x
    ensures SplitFirst(sep, x + [sep] + y) == (x, y)
  {
    if |x| == 0 {
      assert x + [sep] + y == [sep] + y;
      assert ([sep] + y)[1..] == y;
    } else {
      assert (x + [sep] + y)[1..] == x[1..] + [sep] + y;
      SplitFirstAt(sep, x[1..], y);
      assert [x[0]] + x[1..] == x;
    }
  }

  /** Without a `sep`, the whole of `s` is the head and the tail is empty. */
  lemma {:induction false} SplitFirstAbsent(sep: Byte, s: Bytes)
    requires sep !in s
    ensures SplitFirst(sep, s) == (s, [])
  {
    if |s| > 0 {
      SplitFirstAbsent(sep, s[1..]);
      assert [s[0]] + s[1..] == s;
    }
  }
}
