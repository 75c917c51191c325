/** Small value types shared by the launcher model: optional values, bytes,
    decimal rendering of numbers (QString::number) and ASCII lower-casing. */
module Common {

  datatype Option<+T> = None | Some(value: T)

  newtype byte = b: int | 0 <= b < 256

  /** The character of one decimal digit. */
  function Digit(d: nat): (c: char)
    requires d < 10
    ensures '0' <= c <= '9'
  {
    "0123456789"[d]
  }

  /** Decimal rendering of a natural number, without leading zeros. */
  function DecimalString(n: nat): (s: string)
    ensures 1 <= |s|
    ensures forall i :: 0 <= i < |s| ==> '0' <= s[i] <= '9'
    ensures |s| == 1 <==> n < 10
  {
    if n < 10 then [Digit(n)] else DecimalString(n / 10) + [Digit(n % 10)]
  }

  /** Decimal rendering of an integer, with a leading '-' for negative values. */
  function IntString(n: int): (s: string)
    ensures 1 <= |s|
    ensures (s[0] == '-') <==> n < 0
  {
    if n < 0 then "-" + DecimalString(-n) else DecimalString(n)
  }

  /** Distinct numbers have distinct renderings, so names built from them do not collide. */
  lemma {:induction false} DecimalStringInjective(a: nat, b: nat)
    requires DecimalString(a) == DecimalString(b)
    ensures a == b
  {
    var sa, sb := DecimalString(a), DecimalString(b);
    if a >= 10 && b >= 10 {
      assert sa[..|sa| - 1] == DecimalString(a / 10);
      assert sb[..|sb| - 1] == DecimalString(b / 10);
      DecimalStringInjective(a / 10, b / 10);
      assert "0123456789"[a % 10] == sa[|sa| - 1] == "0123456789"[b % 10];
    } else if a < 10 && b < 10 {
      assert "0123456789"[a] == sa[0] == "0123456789"[b];
    }
  }

  /** ASCII lower-casing of one character (QString::toLower on the ASCII range). */
  function LowerChar(c: char): (l: char)
    ensures 'A' <= c <= 'Z' ==> 'a' <= l <= 'z'
    ensures !('A' <= c <= 'Z') ==> l == c
  {
    if 'A' <= c <= 'Z' then (c as int - 'A' as int + 'a' as int) as char else c
  }

  function ToLower(s: string): (l: string)
    ensures |l| == |s|
    ensures forall i :: 0 <= i < |s| ==> l[i] == LowerChar(s[i])
  {
    if s == [] then [] else [LowerChar(s[0])] + ToLower(s[1..])
  }

  /** Number of occurrences of `x` in `s`. */
  function Count<T(==)>(s: seq<T>, x: T): (n: nat)
    ensures n <= |s|
    ensures n == 0 <==> x !in s
  {
    if s == [] then 0 else (if s[0] == x then 1 else 0) + Count(s[1..], x)
  }

  /** Appending one element adds one occurrence of it and none of anything else. */
  lemma {:induction false} CountAppend<T>(s: seq<T>, x: T, y: T)
    ensures Count(s + [x], y) == Count(s, y) + (if x == y then 1 else 0)
  {
    if s != [] {
      assert (s + [x])[1..] == s[1..] + [x];
      CountAppend(s[1..], x, y);
    }
  }

  /** The elements of a sequence, as a set. */
  function Elems<T>(s: seq<T>): set<T>
    decreases |s|
  {
    if |s| == 0 then {} else Elems(s[..|s| - 1]) + {s[|s| - 1]}
  }

  lemma {:induction false} ElemsMembers<T>(s: seq<T>, x: T)
    ensures x in Elems(s) <==> x in s
    decreases |s|
  {
    if |s| > 0 {
      ElemsMembers(s[..|s| - 1], x);
      assert s == s[..|s| - 1] + [s[|s| - 1]];
    }
  }

  /** `order` lists every element of `elems` exactly once: an iteration order of a hash
      set, or any order a sequence of distinct keys is written in. */
  ghost predicate Enumerates<T(!new)>(order: seq<T>, elems: set<T>) {
    (forall k :: k in order <==> k in elems) &&
    (forall i, j :: 0 <= i < j < |order| ==> order[i] != order[j])
  }

  /** Taking one more element out of the pending set extends the iteration order. */
  lemma EnumeratesStep<T(!new)>(order: seq<T>, elems: set<T>, pending: set<T>, x: T)
    requires Enumerates(order, elems - pending) && pending <= elems && x in pending
    ensures Enumerates(order + [x], elems - (pending - {x}))
  {
    var order' := order + [x];
    forall i, j | 0 <= i < j < |order'|
      ensures order'[i] != order'[j]
    {
      if j == |order| {
        assert order[i] in order;
      }
    }
  }

  /** The order in which iterating over a hash set visits its elements: some order that
      lists each element once. */
  method IterationOrder<T(!new)>(elems: set<T>) returns (order: seq<T>)
    ensures Enumerates(order, elems) && |order| == |elems|
  {
    order := [];
    var pending := elems;
    while pending != {}
      invariant pending <= elems
      invariant Enumerates(order, elems - pending) && |order| + |pending| == |elems|
      decreases |pending|
    {
      var x :| x in pending;
      EnumeratesStep(order, elems, pending, x);
      pending := pending - {x};
      order := order + [x];
    }
  }

  /** `s` with its first occurrence of `x` taken out (QList::removeAt(indexOf(x))). */
  function RemoveFirst<T(==)>(s: seq<T>, x: T): (r: seq<T>)
    ensures x !in s ==> r == s
    ensures x in s ==> |r| == |s| - 1
  {
    if s == [] then [] else if s[0] == x then s[1..] else [s[0]] + RemoveFirst(s[1..], x)
  }

  /** Every element other than `x` keeps its number of occurrences. */
  lemma {:induction false} RemoveFirstCount<T>(s: seq<T>, x: T, y: T)
    ensures Count(RemoveFirst(s, x), y) == if x == y && x in s then Count(s, y) - 1 else Count(s, y)
  {
    if s != [] {
      RemoveFirstCount(s[1..], x, y);
      if s[0] != x {
        assert RemoveFirst(s, x) == [s[0]] + RemoveFirst(s[1..], x);
        assert ([s[0]] + RemoveFirst(s[1..], x))[1..] == RemoveFirst(s[1..], x);
      }
    }
  }

  /** Taking out the first `x` keeps the relative order of what remains: the result is `s`
      with one position dropped. */
  lemma {:induction false} RemoveFirstIsDeletion<T>(s: seq<T>, x: T)
    requires x in s
    ensures exists k :: 0 <= k < |s| && s[k] == x && RemoveFirst(s, x) == s[..k] + s[k + 1..]
  {
    if s[0] == x {
      assert RemoveFirst(s, x) == s[..0] + s[1..];
    } else {
      RemoveFirstIsDeletion(s[1..], x);
      var k :| 0 <= k < |s[1..]| && s[1..][k] == x && RemoveFirst(s[1..], x) == s[1..][..k] + s[1..][k + 1..];
      assert s[..k + 1] == [s[0]] + s[1..][..k];
      assert s[k + 2..] == s[1..][k + 1..];
      assert RemoveFirst(s, x) == s[..k + 1] + s[k + 2..];
    }
  }
}

/** Decoded raster images, as QImage holds them: a width, a height and one ARGB
    pixel per (x, y), stored column-major (index x * height + y). The null image
    (QImage()) is what a failed decode gives. */
module Imaging {
  import opened Common

  datatype Pixel = Pixel(r: byte, g: byte, b: byte, a: byte)

  datatype Bitmap = NullImage | Bitmap(width: nat, height: nat, pixels: seq<Pixel>)
  {
    predicate WellFormed() {
      Bitmap? ==> |pixels| == width * height
    }
  }

  /** Only well-formed bitmaps are images. */
  type Image = b: Bitmap | b.WellFormed() witness NullImage

  /** QImage::width and QImage::height: a null image measures 0 by 0. */
  function Width(img: Image): nat {
    if img.Bitmap? then img.width else 0
  }

  function Height(img: Image): nat {
    if img.Bitmap? then img.height else 0
  }

  /** All pixels, column by column; none for the null image. */
  function Pixels(img: Image): (ps: seq<Pixel>)
    ensures |ps| == Width(img) * Height(img)
  {
    if img.Bitmap? then img.pixels else []
  }

  /** The pixel at (x, y). */
  function PixelAt(img: Image, x: nat, y: nat): Pixel
    requires x < Width(img) && y < Height(img)
  {
    MulBound(x, y, Width(img), Height(img));
    Pixels(img)[x * Height(img) + y]
  }

  lemma MulBound(x: nat, y: nat, w: nat, h: nat)
    requires x < w && y < h
    ensures x * h + y < w * h
  {
    assert (x + 1) * h <= w * h;
  }
}

/** The parts of a file path QFileInfo reports. The file name is what follows the last
    '/'; the suffix follows its last '.', the complete base name precedes that dot, and
    the base name precedes the first dot. */
module Paths {

  /** The position of the last `c` in `s`, or -1. */
  function LastIndexOf(s: string, c: char): (i: int)
    ensures -1 <= i < |s|
    ensures i == -1 <==> c !in s
    ensures i >= 0 ==> s[i] == c && c !in s[i + 1..]
  {
    if s == [] then -1
    else if s[|s| - 1] == c then |s| - 1
    else LastIndexOf(s[..|s| - 1], c)
  }

  /** The position of the first `c` in `s`, or -1. */
  function FirstIndexOf(s: string, c: char): (i: int)
    ensures -1 <= i < |s|
    ensures i == -1 <==> c !in s
    ensures i >= 0 ==> s[i] == c && c !in s[..i]
  {
    if s == [] then -1
    else if s[0] == c then 0
    else
      var j := FirstIndexOf(s[1..], c);
      if j == -1 then -1 else j + 1
  }

  /** An element lies in every slice that covers its position. */
  lemma InSlice(s: string, from: int, to: int, k: int)
    requires 0 <= from <= k < to <= |s|
    ensures s[k] in s[from..to]
  {
    assert s[from..to][k - from] == s[k];
  }

  /** The last `c` is the one with no `c` after it. */
  lemma LastIndexAt(s: string, c: char, k: int)
    requires 0 <= k < |s| && s[k] == c && c !in s[k + 1..]
    ensures LastIndexOf(s, c) == k
  {
    var i := LastIndexOf(s, c);
    InSlice(s, 0, |s|, k);
    assert s[..] == s;
    if i < k {
      InSlice(s, i + 1, |s|, k);
    } else if i > k {
      InSlice(s, k + 1, |s|, i);
    }
  }

  /** The first `c` is the one with no `c` before it. */
  lemma FirstIndexAt(s: string, c: char, k: int)
    requires 0 <= k < |s| && s[k] == c && c !in s[..k]
    ensures FirstIndexOf(s, c) == k
  {
    var i := FirstIndexOf(s, c);
    InSlice(s, 0, |s|, k);
    assert s[..] == s;
    if i < k {
      InSlice(s, 0, k, i);
    } else if i > k {
      InSlice(s, 0, i, k);
    }
  }

  function FileName(path: string): (f: string)
    ensures '/' !in f
    ensures |f| <= |path| && f == path[|path| - |f|..]
  {
    path[LastIndexOf(path, '/') + 1..]
  }

  function Suffix(path: string): (s: string)
    ensures '.' !in s
  {
    var f := FileName(path);
    if '.' in f then f[LastIndexOf(f, '.') + 1..] else ""
  }

  function CompleteBaseName(path: string): (b: string)
    ensures b <= FileName(path)
  {
    var f := FileName(path);
    if '.' in f then f[..LastIndexOf(f, '.')] else f
  }

  function BaseName(path: string): (b: string)
    ensures '.' !in b
    ensures b <= CompleteBaseName(path)
  {
    var f := FileName(path);
    if '.' in f then f[..FirstIndexOf(f, '.')] else f
  }
}
