/**
 * The string helpers the command dispatcher relies on: `c_str()` (text up to
 * the first NUL), `find`, the `std::getline`-based `split`, `stoi` and `atoi`.
 */
module Text {
  import opened Native

  /** The text a C string function sees through `c_str()`: everything before the first `stop`. */
  function UntilFirst<T(==)>(s: seq<T>, stop: T): (r: seq<T>)
    ensures r <= s
    ensures stop !in r
    ensures |r| < |s| ==> s[|r|] == stop
  {
    if s == [] || s[0] == stop then [] else [s[0]] + UntilFirst(s[1..], stop)
  }

  /** Text without the stop value is kept whole. */
  lemma {:induction false} UntilFirstWhole<T>(s: seq<T>, stop: T)
    requires stop !in s
    ensures UntilFirst(s, stop) == s
  {
    if s != [] {
      UntilFirstWhole(s[1..], stop);
    }
  }

  /** `c_str()` of a narrow string. */
  function CStr(s: string): string {
    UntilFirst(s, '\0')
  }

  /** `find` / `strchr`: the index of the first occurrence of `x`, if any. */
  function IndexOf<T(==)>(s: seq<T>, x: T): (r: Option<nat>)
    ensures r.None? ==> x !in s
    ensures r.Some? ==> r.value < |s| && s[r.value] == x
  {
    if s == [] then None
    else if s[0] == x then Some(0)
    else match IndexOf(s[1..], x)
      case None => None
      case Some(i) => Some(i + 1)
  }

  /** The occurrence `IndexOf` finds is the first one. */
  lemma {:induction false} IndexOfFirst<T>(s: seq<T>, x: T, k: nat)
    requires IndexOf(s, x).Some? && k < IndexOf(s, x).value
    ensures s[k] != x
  {
    if k > 0 {
      IndexOfFirst(s[1..], x, k - 1);
    }
  }

  /** Nothing before the occurrence `IndexOf` finds is `x`. */
  lemma {:induction false} IndexOfPrefixFree<T>(s: seq<T>, x: T)
    requires IndexOf(s, x).Some?
    ensures x !in s[..IndexOf(s, x).value]
  {
    var i := IndexOf(s, x).value;
    forall k | 0 <= k < i ensures s[..i][k] != x {
      IndexOfFirst(s, x, k);
    }
  }

  /**
   * `split(s, delim)`: the items `std::getline` extracts one after another.
   * Each item ends at a delimiter or at the end of the text; an attempt that
   * extracts nothing fails, so a final empty field is never produced.
   */
  function Split(s: string, delim: char): seq<string>
    decreases |s|
  {
    if s == [] then []
    else match IndexOf(s, delim)
      case None => [s]
      case Some(i) => [s[..i]] + Split(s[i + 1..], delim)
  }

  /** The fields joined back with the delimiter between them. */
  function Join(fields: seq<string>, delim: char): string {
    if fields == [] then []
    else if |fields| == 1 then fields[0]
    else fields[0] + [delim] + Join(fields[1..], delim)
  }

  predicate NoDelimiter(fields: seq<string>, delim: char) {
    forall k :: 0 <= k < |fields| ==> delim !in fields[k]
  }

  /** No field of a split contains the delimiter. */
  lemma {:induction false} SplitNoDelimiter(s: string, delim: char)
    ensures NoDelimiter(Split(s, delim), delim)
    decreases |s|
  {
    if s != [] {
      var r := IndexOf(s, delim);
      if r.Some? {
        var i := r.value;
        SplitNoDelimiter(s[i + 1..], delim);
        IndexOfPrefixFree(s, delim);
        NoDelimiterCons(s[..i], Split(s[i + 1..], delim), delim);
      }
    }
  }

  /** The delimiter that ends `s`, if it ends with one. */
  function FinalDelimiter(s: string, delim: char): string {
    if s != [] && s[|s| - 1] == delim then [delim] else []
  }

  /** Joining the fields of a split back gives the text, less a final delimiter. */
  lemma {:induction false} SplitJoin(s: string, delim: char)
    ensures Join(Split(s, delim), delim) + FinalDelimiter(s, delim) == s
    decreases |s|
  {
    if s != [] {
      var r := IndexOf(s, delim);
      if r.Some? {
        var i := r.value;
        SplitFirst(s, i, delim);
        SplitEmpty(s[i + 1..], delim);
        SplitJoin(s[i + 1..], delim);
        JoinAfterField(s, i, Split(s[i + 1..], delim), delim);
      } else {
        SplitOfItem(s, delim);
      }
    }
  }

  lemma {:induction false} SplitEmpty(s: string, delim: char)
    ensures (Split(s, delim) == []) == (s == [])
  {
  }

  /** The inductive step of `SplitJoin`: the first field, its delimiter, and fields that join back to the rest. */
  lemma {:induction false} JoinAfterField(s: string, i: nat, fs: seq<string>, delim: char)
    requires i < |s| && s[i] == delim
    requires (fs == []) == (s[i + 1..] == [])
    requires Join(fs, delim) + FinalDelimiter(s[i + 1..], delim) == s[i + 1..]
    ensures Join([s[..i]] + fs, delim) + FinalDelimiter(s, delim) == s
  {
    var head, rest := s[..i], s[i + 1..];
    if rest != [] {
      JoinCons(head, fs, delim);
      assert s[|s| - 1] == rest[|rest| - 1];
      var j, tail := Join(fs, delim), FinalDelimiter(rest, delim);
      assert s == head + [delim] + (j + tail);
    } else {
      assert [head] + fs == [head];
      assert s == head + [delim];
    }
  }

  lemma NoDelimiterCons(f: string, fs: seq<string>, delim: char)
    requires delim !in f && NoDelimiter(fs, delim)
    ensures NoDelimiter([f] + fs, delim)
  {
    forall k | 0 <= k < |[f] + fs| ensures delim !in ([f] + fs)[k] {
      if k > 0 {
        assert ([f] + fs)[k] == fs[k - 1];
      }
    }
  }

  lemma {:induction false} JoinCons(f: string, fs: seq<string>, delim: char)
    requires fs != []
    ensures Join([f] + fs, delim) == f + [delim] + Join(fs, delim)
  {
    assert ([f] + fs)[1..] == fs;
  }

  /** A delimiter-free field followed by the delimiter is split off as the first field. */
  lemma {:induction false} SplitCons(f: string, rest: string, delim: char)
    requires delim !in f
    ensures Split(f + [delim] + rest, delim) == [f] + Split(rest, delim)
  {
    var s := f + [delim] + rest;
    ConsParts(f, delim, rest);
    forall k | 0 <= k < |f| ensures s[k] != delim {
      assert s[k] == f[k];
    }
    FieldSplit(s, 0, |f|, delim);
  }

  lemma ConsParts(f: string, c: char, rest: string)
    ensures (f + [c] + rest)[0..] == f + [c] + rest
    ensures |f + [c] + rest| == |f| + 1 + |rest| && (f + [c] + rest)[|f|] == c
    ensures (f + [c] + rest)[0..|f|] == f && (f + [c] + rest)[|f| + 1..] == rest
  {
  }

  /** Splitting fields joined by the delimiter gives them back, provided the last one is not empty. */
  lemma {:induction false} JoinSplit(fields: seq<string>, delim: char)
    requires NoDelimiter(fields, delim)
    requires fields != [] && fields[|fields| - 1] != []
    ensures Split(Join(fields, delim), delim) == fields
    decreases |fields|
  {
    NoDelimiterTail(fields, delim);
    if |fields| == 1 {
      SplitOfItem(fields[0], delim);
      OneField(fields);
    } else {
      SplitCons(fields[0], Join(fields[1..], delim), delim);
      JoinSplit(fields[1..], delim);
      HeadTail(fields);
    }
  }

  lemma NoDelimiterTail(fields: seq<string>, delim: char)
    requires NoDelimiter(fields, delim) && fields != []
    ensures delim !in fields[0] && NoDelimiter(fields[1..], delim)
  {
    forall k | 0 <= k < |fields| - 1 ensures delim !in fields[1..][k] {
      assert fields[1..][k] == fields[k + 1];
    }
  }

  lemma HeadTail<T>(xs: seq<T>)
    requires xs != []
    ensures [xs[0]] + xs[1..] == xs
  {
  }

  lemma OneField<T>(xs: seq<T>)
    requires |xs| == 1
    ensures [xs[0]] == xs
  {
  }

  /** Two fields without the delimiter, the last one non-empty, joined by it, split back into themselves. */
  lemma {:induction false} SplitTwo(a: string, b: string, delim: char)
    requires delim !in a && delim !in b && b != []
    ensures Split(a + [delim] + b, delim) == [a, b]
  {
    SplitCons(a, b, delim);
    SplitOfItem(b, delim);
  }

  /** Three fields without the delimiter, the last one non-empty, joined by it, split back into themselves. */
  lemma {:induction false} SplitThree(a: string, b: string, c: string, delim: char)
    requires delim !in a && delim !in b && delim !in c && c != []
    ensures Split(a + [delim] + b + [delim] + c, delim) == [a, b, c]
  {
    var d := [delim];
    AppendAssoc(a + d, b, d);
    AppendAssoc(a + d, b + d, c);
    SplitCons(a, b + d + c, delim);
    SplitCons(b, c, delim);
    SplitOfItem(c, delim);
    assert [a] + ([b] + [c]) == [a, b, c];
  }

  /** A delimiter-terminated empty last field is dropped: the getline behaviour the arity checks see. */
  lemma {:induction false} TrailingEmptyFieldDropped(fields: seq<string>, delim: char)
    requires NoDelimiter(fields, delim)
    requires fields != []
    ensures Split(Join(fields + [[]], delim), delim) == fields
    decreases |fields|
  {
    var rest := fields[1..];
    NoDelimiterTail(fields, delim);
    AppendTail(fields, []);
    SplitCons(fields[0], Join(rest + [[]], delim), delim);
    if |fields| == 1 {
      OneEmptyField(rest);
      OneField(fields);
    } else {
      TrailingEmptyFieldDropped(rest, delim);
      HeadTail(fields);
    }
  }

  lemma AppendTail<T>(xs: seq<T>, x: T)
    requires xs != []
    ensures |xs + [x]| >= 2 && (xs + [x])[0] == xs[0] && (xs + [x])[1..] == xs[1..] + [x]
  {
  }

  lemma OneEmptyField(rest: seq<string>)
    requires rest == []
    ensures rest + [[]] == [[]]
  {
  }

  /** The first delimiter after a delimiter-free prefix is found right after it. */
  lemma {:induction false} IndexOfAfterPrefix(prefix: string, rest: string, delim: char)
    requires delim !in prefix
    requires rest != [] && rest[0] == delim
    ensures IndexOf(prefix + rest, delim) == Some(|prefix|)
    decreases |prefix|
  {
    if prefix != [] {
      assert (prefix + rest)[1..] == prefix[1..] + rest;
      IndexOfAfterPrefix(prefix[1..], rest, delim);
    }
  }

  /**
   * `split`: pushes into the result vector in a `std::getline` loop. An item is
   * pushed at each delimiter; at the end of the text, only if it is not empty.
   */
  method SplitFields(s: string, delim: char) returns (elems: seq<string>)
    ensures elems == Split(s, delim)
  {
    elems := [];
    var item: string := [];
    var i := 0;
    ghost var start := 0;
    while i < |s|
      invariant start <= i <= |s| && item == s[start..i]
      invariant GetlineItems(s, delim, start, i, elems) == GetlineItems(s, delim, 0, 0, [])
    {
      if s[i] == delim {
        elems := elems + [item];
        item := [];
        start := i + 1;
      } else {
        item := item + [s[i]];
      }
      i := i + 1;
    }
    GetlineItemsSplit(s, delim, 0, 0, []);
    assert s[0..] == s;
    assert item == s[start..];
    if item != [] {
      elems := elems + [item];
    }
  }

  /**
   * The items the `getline` loop of `split` has produced once the whole text is
   * read, given the items `elems` already pushed, the current item starting at
   * `start` and the loop at position `i`.
   */
  function GetlineItems(s: string, delim: char, start: nat, i: nat, elems: seq<string>): seq<string>
    requires start <= i <= |s|
    decreases |s| - i
  {
    if i == |s| then (if start == i then elems else elems + [s[start..]])
    else if s[i] == delim then GetlineItems(s, delim, i + 1, i + 1, elems + [s[start..i]])
    else GetlineItems(s, delim, start, i + 1, elems)
  }

  /** Whatever its position, the `getline` loop produces the split of what it has not yet pushed. */
  lemma {:induction false} GetlineItemsSplit(s: string, delim: char, start: nat, i: nat, elems: seq<string>)
    requires start <= i <= |s|
    requires forall k :: start <= k < i ==> s[k] != delim
    ensures GetlineItems(s, delim, start, i, elems) == elems + Split(s[start..], delim)
    decreases |s| - i
  {
    if i == |s| {
      LastFieldSplit(s, start, delim);
      AppendEmpty(elems);
    } else if s[i] == delim {
      GetlineItemsSplit(s, delim, i + 1, i + 1, elems + [s[start..i]]);
      FieldSplit(s, start, i, delim);
      AppendAssoc(elems, [s[start..i]], Split(s[i + 1..], delim));
    } else {
      GetlineItemsSplit(s, delim, start, i + 1, elems);
    }
  }

  /** The field `getline` extracts at a delimiter, from where the previous one ended, is the next field of the split. */
  lemma {:induction false} FieldSplit(s: string, start: nat, i: nat, delim: char)
    requires start <= i < |s| && s[i] == delim
    requires forall k :: start <= k < i ==> s[k] != delim
    ensures Split(s[start..], delim) == [s[start..i]] + Split(s[i + 1..], delim)
  {
    IndexOfFrom(s, start, i, delim);
    SplitFirst(s[start..], i - start, delim);
    SubSlice(s, start, i);
    DropPast(s, start, i);
  }

  lemma {:induction false} SplitFirst(t: string, j: nat, delim: char)
    requires IndexOf(t, delim) == Some(j)
    ensures j < |t| && Split(t, delim) == [t[..j]] + Split(t[j + 1..], delim)
  {
  }

  lemma AppendEmpty<T>(xs: seq<T>)
    ensures xs + [] == xs
  {
  }

  lemma AppendAssoc<T>(xs: seq<T>, ys: seq<T>, zs: seq<T>)
    ensures (xs + ys) + zs == xs + (ys + zs)
  {
  }

  lemma SubSlice(s: string, a: nat, b: nat)
    requires a <= b <= |s|
    ensures s[a..][..b - a] == s[a..b]
  {
  }

  lemma DropPast(s: string, a: nat, b: nat)
    requires a <= b < |s|
    ensures s[a..][b - a + 1..] == s[b + 1..]
  {
  }

  /** The first delimiter from `start` on is the one with none between `start` and it. */
  lemma {:induction false} IndexOfFrom(s: string, start: nat, i: nat, delim: char)
    requires start <= i < |s| && s[i] == delim
    requires forall k :: start <= k < i ==> s[k] != delim
    ensures IndexOf(s[start..], delim) == Some(i - start)
    decreases i - start
  {
    if start < i {
      assert s[start..][1..] == s[start + 1..];
      IndexOfFrom(s, start + 1, i, delim);
    }
  }

  /** What `getline` extracts after the last delimiter: one more field, unless it is empty. */
  lemma {:induction false} LastFieldSplit(s: string, start: nat, delim: char)
    requires start <= |s|
    requires forall k :: start <= k < |s| ==> s[k] != delim
    ensures Split(s[start..], delim) == if start == |s| then [] else [s[start..]]
  {
    SplitOfItem(s[start..], delim);
  }

  /** A delimiter-free last item is one field, or none when it is empty. */
  lemma {:induction false} SplitOfItem(item: string, delim: char)
    requires delim !in item
    ensures Split(item, delim) == if item == [] then [] else [item]
  {
    if item != [] {
      assert IndexOf(item, delim).None?;
    }
  }

  // ---------------------------------------------------------------- numbers

  predicate IsDigit(c: char) {
    '0' <= c <= '9'
  }

  /** The white space `strtol` skips: space, `\t`, `\n`, `\v`, `\f`, `\r`. */
  predicate IsSpace(c: char) {
    c == ' ' || 9 <= c as int <= 13
  }

  function DigitValue(c: char): nat
    requires IsDigit(c)
  {
    c as int - '0' as int
  }

  /** The number of decimal digits at the start of `s`. */
  function DigitCount(s: string): (n: nat)
    ensures n <= |s|
    ensures forall k :: 0 <= k < n ==> IsDigit(s[k])
    ensures n < |s| ==> !IsDigit(s[n])
  {
    if s == [] || !IsDigit(s[0]) then 0 else 1 + DigitCount(s[1..])
  }

  /** The value of a string of decimal digits, most significant first. */
  function DecimalValue(digits: string): nat
    requires forall k :: 0 <= k < |digits| ==> IsDigit(digits[k])
  {
    if digits == [] then 0
    else 10 * DecimalValue(digits[..|digits| - 1]) + DigitValue(digits[|digits| - 1])
  }

  function SkipSpaces(s: string): (r: string)
    ensures |r| <= |s|
    ensures r == [] || !IsSpace(r[0])
    ensures s == [] || !IsSpace(s[0]) ==> r == s
  {
    if s != [] && IsSpace(s[0]) then SkipSpaces(s[1..]) else s
  }

  /**
   * The number `strtol` reads at the start of `s`: leading white space, an
   * optional sign, then decimal digits up to the first non-digit. `None` when
   * there is no digit at all. The value is exact (range checks are the callers').
   */
  function ParseLong(s: string): Option<int> {
    var t := SkipSpaces(s);
    var negative := t != [] && t[0] == '-';
    var body := if t != [] && (t[0] == '-' || t[0] == '+') then t[1..] else t;
    var n := DigitCount(body);
    if n == 0 then None
    else
      var v: int := DecimalValue(body[..n]);
      Some(if negative then -v else v)
  }

  /** `std::stoi`: `None` stands for the `invalid_argument` or `out_of_range` exception it throws. */
  function Stoi(s: string): (r: Option<int>)
    ensures r.Some? ==> IsInt32(r.value)
  {
    match ParseLong(s)
    case None => None
    case Some(v) => if IsInt32(v) then Some(v) else None
  }

  /** MSVC `atoi`: 0 when there is no number, `INT_MAX` / `INT_MIN` when it does not fit. */
  function Atoi(s: string): (r: int)
    ensures IsInt32(r)
  {
    match ParseLong(s)
    case None => 0
    case Some(v) => if v > INT_MAX then INT_MAX else if v < INT_MIN then INT_MIN else v
  }

  /** The decimal text of a natural number, as the gateway writes integer arguments. */
  function DecimalString(n: nat): (s: string)
    ensures s != []
    ensures forall k :: 0 <= k < |s| ==> IsDigit(s[k])
  {
    if n < 10 then [('0' as int + n) as char]
    else DecimalString(n / 10) + [('0' as int + n % 10) as char]
  }

  lemma {:induction false} DecimalValueOfString(n: nat)
    ensures DecimalValue(DecimalString(n)) == n
  {
    var s := DecimalString(n);
    if n >= 10 {
      DecimalValueOfString(n / 10);
      assert s[..|s| - 1] == DecimalString(n / 10);
    }
  }

  predicate AllDigits(s: string) {
    forall k :: 0 <= k < |s| ==> IsDigit(s[k])
  }

  /** `strtol` reads a string of digits as its decimal value. */
  lemma {:induction false} ParseLongDigits(d: string)
    requires d != [] && AllDigits(d)
    ensures ParseLong(d) == Some(DecimalValue(d) as int)
  {
    assert IsDigit(d[0]);
    assert SkipSpaces(d) == d;
    DigitCountAll(d);
    assert d[..|d|] == d;
  }

  /** `strtol` reads a minus sign followed by digits as the negated decimal value. */
  lemma {:induction false} ParseLongNegativeDigits(d: string)
    requires d != [] && AllDigits(d)
    ensures ParseLong("-" + d) == Some(-(DecimalValue(d) as int))
  {
    DropSign(d);
    ParseLongNegative("-" + d, d);
  }

  lemma DropSign(d: string)
    ensures |"-" + d| == |d| + 1 && ("-" + d)[0] == '-' && ("-" + d)[1..] == d
  {
  }

  lemma {:induction false} ParseLongNegative(s: string, d: string)
    requires d != [] && AllDigits(d)
    requires |s| == |d| + 1 && s[0] == '-' && s[1..] == d
    ensures ParseLong(s) == Some(-(DecimalValue(d) as int))
  {
    assert SkipSpaces(s) == s;
    DigitCountAll(d);
    assert d[..|d|] == d;
  }

  /** `strtol` reads back the decimal text of every integer. */
  lemma ParseLongOfIntString(v: int)
    ensures ParseLong(IntString(v)) == Some(v)
  {
    var d := DecimalString(Abs(v));
    DecimalValueOfString(Abs(v));
    if v < 0 {
      assert IntString(v) == "-" + d;
      ParseLongNegativeDigits(d);
    } else {
      assert IntString(v) == d;
      ParseLongDigits(d);
    }
  }

  lemma {:induction false} DigitCountAll(s: string)
    requires forall k :: 0 <= k < |s| ==> IsDigit(s[k])
    ensures DigitCount(s) == |s|
  {
    if s != [] {
      DigitCountAll(s[1..]);
    }
  }

  /** `stoi` reads back every 32-bit value written in decimal. */
  lemma StoiOfDecimal(v: int)
    requires IsInt32(v)
    ensures Stoi(IntString(v)) == Some(v)
    ensures Atoi(IntString(v)) == v
  {
    ParseLongOfIntString(v);
  }

  /** The decimal text of an integer, with a minus sign when negative. */
  function IntString(v: int): string {
    (if v < 0 then "-" else "") + DecimalString(Abs(v))
  }

  /** The decimal text of an integer holds nothing but digits and a leading minus sign, and no sign when the integer is not negative. */
  lemma IntStringChars(v: int)
    ensures IntString(v) != []
    ensures forall k :: 0 < k < |IntString(v)| ==> IsDigit(IntString(v)[k])
    ensures IsDigit(IntString(v)[0]) || (v < 0 && IntString(v)[0] == '-')
  {
  }
}
