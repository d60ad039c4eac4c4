/** Text serialisation of integers and containers of integers, as in lib/serial.h. */
module Serial {
  import opened Prelude
  import opened Decimal

  const INT_MIN := -0x8000_0000
  const INT_MAX := 0x7FFF_FFFF

  // ----- input streams -----

  /** What is left of an input stream, and its eof and fail bits. */
  datatype In = In(rest: string, eof: bool, fail: bool) {
    predicate Good() {
      !eof && !fail
    }
  }

  function DigitCount(s: string): (k: nat)
    ensures k <= |s| && AllDigits(s[..k])
  {
    if s == [] || !IsDigit(s[0]) then 0 else 1 + DigitCount(s[1..])
  }

  /** `is >> x` up to the range check: the number, if there are digits, and the stream behind it. */
  function Scan(s: In): (Option<int>, In)
    requires s.Good()
  {
    var t := SkipSpace(s.rest);
    var signed := t != [] && (t[0] == '-' || t[0] == '+');
    var body := if signed then t[1..] else t;
    var k := DigitCount(body);
    var after := In(body[k..], body[k..] == [], false);
    if k == 0 then (None, after.(fail := true))
    else
      var n := ReadDigits(body[..k], 0);
      (Some(if signed && t[0] == '-' then -(n as int) else n), after)
  }

  /** `is >> x` for an int that holds `x` before. */
  function ExtractInt(s: In, x: int): (int, In) {
    if !s.Good() || SkipSpace(s.rest) == [] then (x, s.(fail := true))
    else
      match Scan(s)
      case (None, after) => (0, after)
      case (Some(n), after) =>
        if n < INT_MIN then (INT_MIN, after.(fail := true))
        else if n > INT_MAX then (INT_MAX, after.(fail := true))
        else (n, after)
  }

  /** `is >> size`; where nothing can be read the code leaves `size` uninitialised, here 0. */
  function ExtractSize(s: In): (nat, In) {
    if !s.Good() || SkipSpace(s.rest) == [] then (0, s.(fail := true))
    else
      match Scan(s)
      case (None, after) => (0, after)
      case (Some(n), after) =>
        if Abs(n) >= 0x1_0000_0000_0000_0000 then (0xFFFF_FFFF_FFFF_FFFF, after.(fail := true))
        else (n % 0x1_0000_0000_0000_0000, after)
  }

  // ----- serialising -----

  function IntText(x: int): string {
    Itoa(x) + " "
  }

  /** The texts of the elements, one behind the other. */
  function Texts<T>(text: T -> string, xs: seq<T>): string
    decreases |xs|
  {
    if xs == [] then "" else text(xs[0]) + Texts(text, xs[1..])
  }

  function IntsText(xs: seq<int>): string {
    Texts(IntText, xs)
  }

  /** The size, and then the elements in the container's order. */
  function ContainerText(elements: seq<int>): string {
    IntText(|elements|) + IntsText(elements)
  }

  /** The keys and values of a map, in the order in which it is iterated. */
  function Pairs(entries: seq<(int, int)>): seq<int>
    decreases |entries|
  {
    if entries == [] then [] else [entries[0].0, entries[0].1] + Pairs(entries[1..])
  }

  function MapText(entries: seq<(int, int)>): string {
    IntText(|entries|) + IntsText(Pairs(entries))
  }

  lemma {:induction false} TextsSnoc<T>(text: T -> string, xs: seq<T>, x: T)
    ensures Texts(text, xs + [x]) == Texts(text, xs) + text(x)
    decreases |xs|
  {
    if xs == [] {
      assert xs + [x] == [x] && [x][1..] == [];
    } else {
      TailOfConcat(xs, [x]);
      TextsSnoc(text, xs[1..], x);
      Assoc(text(xs[0]), Texts(text, xs[1..]), text(x));
    }
  }

  /** The first text and what follows it. */
  lemma TextsCons<T>(text: T -> string, xs: seq<T>, rest: string)
    ensures Texts(text, xs) + rest == if xs == [] then rest else text(xs[0]) + (Texts(text, xs[1..]) + rest)
  {
    if xs == [] {
      assert "" + rest == rest;
    } else {
      Assoc(text(xs[0]), Texts(text, xs[1..]), rest);
    }
  }

  lemma OneMoreText<T>(text: T -> string, xs: seq<T>, i: nat, before: string)
    requires i < |xs|
    ensures before + Texts(text, xs[..i + 1]) == before + Texts(text, xs[..i]) + text(xs[i])
  {
    assert xs[..i + 1] == xs[..i] + [xs[i]];
    TextsSnoc(text, xs[..i], xs[i]);
    Assoc(before, Texts(text, xs[..i]), text(xs[i]));
  }

  method SerializeInts(elements: seq<int>, os: string) returns (out: string)
    ensures out == os + ContainerText(elements)
  {
    out := os + IntText(|elements|);
    ghost var start := out;
    for i := 0 to |elements|
      invariant out == start + IntsText(elements[..i])
    {
      OneMoreText(IntText, elements, i, start);
      out := out + IntText(elements[i]);
    }
    assert elements[..|elements|] == elements;
    Assoc(os, IntText(|elements|), IntsText(elements));
  }

  /** The entries of a map in the order in which it is iterated. */
  method SerializeMap(entries: seq<(int, int)>, os: string) returns (out: string)
    ensures out == os + MapText(entries)
  {
    out := os + IntText(|entries|);
    ghost var start := out;
    for i := 0 to |entries|
      invariant out == start + IntsText(Pairs(entries[..i]))
    {
      PairsSnoc(entries[..i], entries[i]);
      assert entries[..i + 1] == entries[..i] + [entries[i]];
      var (key, val) := entries[i];
      TextsSnoc(IntText, Pairs(entries[..i]), key);
      TextsSnoc(IntText, Pairs(entries[..i]) + [key], val);
      Assoc(start, IntsText(Pairs(entries[..i])), IntText(key));
      Assoc(start, IntsText(Pairs(entries[..i]) + [key]), IntText(val));
      out := out + IntText(key);
      out := out + IntText(val);
    }
    assert entries[..|entries|] == entries;
    Assoc(os, IntText(|entries|), IntsText(Pairs(entries)));
  }

  lemma {:induction false} PairsSnoc(entries: seq<(int, int)>, e: (int, int))
    ensures Pairs(entries + [e]) == Pairs(entries) + [e.0] + [e.1]
    decreases |entries|
  {
    if entries == [] {
      assert entries + [e] == [e] && [e][1..] == [];
    } else {
      PairsSnoc(entries[1..], e);
      TailOfConcat(entries, [e]);
    }
  }

  /** The format: the size, then the elements, or each key before its value, a blank behind every number. */
  lemma {:induction false} FormatOfTwo(a: int, b: int)
    ensures ContainerText([a, b]) == (Itoa(2) + " ") + ((Itoa(a) + " ") + (Itoa(b) + " "))
    ensures MapText([(a, b)]) == (Itoa(1) + " ") + ((Itoa(a) + " ") + (Itoa(b) + " "))
    ensures ContainerText([]) == MapText([]) == Itoa(0) + " "
  {
    TextsOfTwo(IntText, a, b);
    assert Pairs([(a, b)]) == [a, b] by {
      assert [(a, b)][1..] == [];
      assert [a, b] + [] == [a, b];
    }
    assert |[a, b]| == 2 && |[(a, b)]| == 1;
    assert IntText(0) + Texts(IntText, []) == IntText(0);
  }

  lemma {:induction false} TextsOfTwo<T>(text: T -> string, a: T, b: T)
    ensures Texts(text, [a, b]) == text(a) + text(b)
  {
    assert [a, b][1..] == [b] && [b][1..] == [];
    assert Texts(text, [a, b]) == text(a) + Texts(text, [b]);
    assert Texts(text, [b]) == text(b) + Texts(text, []) == text(b);
  }

  // ----- deserialising -----

  /** `n` turns of the element loop of a container; `t` is reused from turn to turn. */
  function ReadMany<T>(read: (In, T) -> (T, In), n: nat, s: In, t: T): (seq<T>, In) {
    if n == 0 then ([], s)
    else
      var (x, s1) := read(s, t);
      var (xs, s2) := ReadMany(read, n - 1, s1, x);
      ([x] + xs, s2)
  }

  /** Into a vector: appended to what it holds. */
  function IntoVector(v: seq<int>, s: In): (seq<int>, In) {
    var (size, s1) := ExtractSize(s);
    var (xs, s2) := ReadMany(ExtractInt, size, s1, 0);
    (v + xs, s2)
  }

  function ToSet(xs: seq<int>): set<int> {
    set x | x in xs
  }

  function IntoSet(v: set<int>, s: In): (set<int>, In) {
    var (size, s1) := ExtractSize(s);
    var (xs, s2) := ReadMany(ExtractInt, size, s1, 0);
    (v + ToSet(xs), s2)
  }

  function Entries(read: (In, int) -> (int, In), n: nat, m: map<int, int>, s: In, k: int, v: int): (map<int, int>, In) {
    if n == 0 then (m, s)
    else
      var (k1, s1) := read(s, k);
      var (v1, s2) := read(s1, v);
      Entries(read, n - 1, m[k1 := v1], s2, k1, v1)
  }

  function IntoMap(m: map<int, int>, s: In): (map<int, int>, In) {
    var (size, s1) := ExtractSize(s);
    Entries(ExtractInt, size, m, s1, 0, 0)
  }

  method DeserializeVector(v: seq<int>, input: In) returns (r: seq<int>, s: In)
    ensures (r, s) == IntoVector(v, input)
  {
    r := v;
    var (size, s1) := ExtractSize(input);
    s := s1;
    var t := 0;
    for i := 0 to size
      invariant var (xs, s2) := ReadMany(ExtractInt, size, s1, 0);
                var (ys, s3) := ReadMany(ExtractInt, size - i, s, t);
                v + xs == r + ys && s2 == s3
    {
      var (x, next) := ExtractInt(s, t);
      t, s := x, next;
      assert forall ys: seq<int> :: r + ([x] + ys) == (r + [x]) + ys;
      r := r + [x];
    }
    assert r + [] == r;
  }

  method DeserializeMap(m: map<int, int>, input: In) returns (r: map<int, int>, s: In)
    ensures (r, s) == IntoMap(m, input)
  {
    r := m;
    var (size, s1) := ExtractSize(input);
    s := s1;
    var k, v := 0, 0;
    for i := 0 to size
      invariant Entries(ExtractInt, size - i, r, s, k, v) == Entries(ExtractInt, size, m, s1, 0, 0)
    {
      var (k1, s2) := ExtractInt(s, k);
      var (v1, s3) := ExtractInt(s2, v);
      k, v, s := k1, v1, s3;
      r := r[k := v];
    }
  }

  // ----- what was serialised is read back -----

  /** A good stream that holds `text` after at most one blank left over from the value before. */
  ghost predicate At(s: In, text: string) {
    s.Good() && (s.rest == text || s.rest == " " + text)
  }

  lemma {:induction false} DigitCountOfDigits(s: string, rest: string)
    requires AllDigits(s) && EndsNumber(rest)
    ensures DigitCount(s + rest) == |s|
  {
    if s == [] {
      assert s + rest == rest;
    } else {
      assert (s + rest)[1..] == s[1..] + rest;
      DigitCountOfDigits(s[1..], rest);
    }
  }

  lemma SkipLeftover(s: In, text: string)
    requires At(s, text) && text != [] && !IsSpace(text[0])
    ensures SkipSpace(s.rest) == text
  {
    if s.rest == " " + text {
      assert s.rest[1..] == text;
    }
  }

  lemma ScanReadsNumber(s: In, negative: bool, digits: string, tail: string)
    requires s.Good() && digits != [] && AllDigits(digits) && EndsNumber(tail)
    requires SkipSpace(s.rest) == (if negative then ['-'] + digits else digits) + tail
    ensures Scan(s).0 == Some(if negative then -(ReadDigits(digits, 0) as int) else ReadDigits(digits, 0))
    ensures Scan(s).1 == In(tail, tail == [], false)
  {
    var t := SkipSpace(s.rest);
    var body := if negative then t[1..] else t;
    assert body == digits + tail;
    DigitCountOfDigits(digits, tail);
    assert body[..|digits|] == digits && body[|digits|..] == tail;
  }

  lemma ScanReadsInt(s: In, x: int, rest: string)
    requires At(s, IntText(x) + rest)
    ensures SkipSpace(s.rest) != [] && Scan(s) == (Some(x), In(" " + rest, false, false))
  {
    var n := if x < 0 then -x else x;
    var tail := " " + rest;
    assert IntText(x) + rest == Itoa(x) + tail;
    ItoaShape(x);
    SkipLeftover(s, Itoa(x) + tail);
    DigitsAreDigits(n);
    ReadDigitsOfDigits(n);
    ScanReadsNumber(s, x < 0, Digits(n), tail);
  }

  /**
   * Any written number is read: one beyond the range of an int as the nearest end of the range, with the
   * fail bit set.  From a stream that has failed, or has nothing but blanks left, nothing is read.
   */
  lemma IntExtracted(s: In, x: int, rest: string, before: int)
    ensures At(s, IntText(x) + rest) ==>
              ExtractInt(s, before) ==
                (if x < -0x8000_0000 then -0x8000_0000 else if x > 0x7FFF_FFFF then 0x7FFF_FFFF else x,
                 In(" " + rest, false, !(-0x8000_0000 <= x <= 0x7FFF_FFFF)))
    ensures !s.Good() || SkipSpace(s.rest) == [] ==> ExtractInt(s, before) == (before, s.(fail := true))
  {
    if At(s, IntText(x) + rest) {
      ScanReadsInt(s, x, rest);
    }
  }

  predicate FitsInt32(x: int) {
    INT_MIN <= x <= INT_MAX
  }

  predicate AllInt32(xs: seq<int>) {
    forall i | 0 <= i < |xs| :: FitsInt32(xs[i])
  }

  /**
   * Where `text(u)` stands, `read` makes `after(t, u)` of what the variable held before, and goes on
   * behind the text.
   */
  ghost predicate ReadsBack<T(!new), U(!new)>(read: (In, T) -> (T, In), text: U -> string,
                                              after: (T, U) -> T, fits: U -> bool)
  {
    forall s: In, t: T, u: U, rest: string :: ReadsBackAt(read, text, after, fits, s, t, u, rest)
  }

  ghost predicate ReadsBackAt<T, U>(read: (In, T) -> (T, In), text: U -> string, after: (T, U) -> T, fits: U -> bool,
                                    s: In, t: T, u: U, rest: string)
  {
    fits(u) && At(s, text(u) + rest) ==> read(s, t).0 == after(t, u) && At(read(s, t).1, rest)
  }

  /** The values that the variable takes on. */
  function Afters<T, U>(after: (T, U) -> T, t: T, us: seq<U>): seq<T>
    decreases |us|
  {
    if us == [] then [] else [after(t, us[0])] + Afters(after, after(t, us[0]), us[1..])
  }

  lemma {:induction false} ManyReadBack<T(!new), U(!new)>(
      read: (In, T) -> (T, In), text: U -> string, after: (T, U) -> T, fits: U -> bool,
      us: seq<U>, s: In, t: T, rest: string)
    requires ReadsBack(read, text, after, fits)
    requires At(s, Texts(text, us) + rest) && forall i | 0 <= i < |us| :: fits(us[i])
    ensures ReadMany(read, |us|, s, t).0 == Afters(after, t, us) && At(ReadMany(read, |us|, s, t).1, rest)
    decreases |us|
  {
    TextsCons(text, us, rest);
    if us != [] {
      assert ReadsBackAt(read, text, after, fits, s, t, us[0], Texts(text, us[1..]) + rest);
      ManyReadBack(read, text, after, fits, us[1..], read(s, t).1, read(s, t).0, rest);
    }
  }

  /** An int is overwritten. */
  function Second(before: int, x: int): int {
    x
  }

  lemma {:induction false} IntReadsBack(s: In, t: int, x: int, rest: string)
    ensures ReadsBackAt(ExtractInt, IntText, Second, FitsInt32, s, t, x, rest)
  {
    if FitsInt32(x) && At(s, IntText(x) + rest) {
      ScanReadsInt(s, x, rest);
    }
  }

  lemma {:induction false} IntsReadBack()
    ensures ReadsBack(ExtractInt, IntText, Second, FitsInt32)
  {
    forall s: In, t: int, x: int, rest: string
      ensures ReadsBackAt(ExtractInt, IntText, Second, FitsInt32, s, t, x, rest)
    {
      IntReadsBack(s, t, x, rest);
    }
  }

  lemma {:induction false} SecondsAre(t: int, xs: seq<int>)
    ensures Afters(Second, t, xs) == xs
    decreases |xs|
  {
    if xs != [] {
      SecondsAre(xs[0], xs[1..]);
    }
  }

  lemma ElementsReadBack(s: In, xs: seq<int>, rest: string, t: int)
    requires At(s, IntsText(xs) + rest) && AllInt32(xs)
    ensures ReadMany(ExtractInt, |xs|, s, t).0 == xs && At(ReadMany(ExtractInt, |xs|, s, t).1, rest)
  {
    IntsReadBack();
    SecondsAre(t, xs);
    ManyReadBack(ExtractInt, IntText, Second, FitsInt32, xs, s, t, rest);
  }

  lemma SizeThenRest(s: In, size: nat, text: string, rest: string)
    requires At(s, IntText(size) + text + rest) && size < 0x1_0000_0000_0000_0000
    ensures ExtractSize(s).0 == size && At(ExtractSize(s).1, text + rest)
  {
    Assoc(IntText(size), text, rest);
    ScanReadsInt(s, size, text + rest);
  }

  lemma ContainerReadsBack(s: In, v: seq<int>, xs: seq<int>, rest: string)
    requires At(s, ContainerText(xs) + rest) && AllInt32(xs) && |xs| < 0x1_0000_0000_0000_0000
    ensures IntoVector(v, s).0 == v + xs && At(IntoVector(v, s).1, rest)
    ensures IntoSet({}, s).0 == ToSet(xs) && At(IntoSet({}, s).1, rest)
  {
    SizeThenRest(s, |xs|, IntsText(xs), rest);
    ElementsReadBack(ExtractSize(s).1, xs, rest, 0);
  }

  ghost predicate DistinctKeys(entries: seq<(int, int)>) {
    forall i, j | 0 <= i < j < |entries| :: entries[i].0 != entries[j].0
  }

  /** `entries` lists the map `m`, each key once, in some order. */
  ghost predicate Lists(entries: seq<(int, int)>, m: map<int, int>) {
    && DistinctKeys(entries)
    && (forall i | 0 <= i < |entries| :: entries[i].0 in m && m[entries[i].0] == entries[i].1)
    && forall k | k in m :: exists i | 0 <= i < |entries| :: entries[i].0 == k
  }

  /** The entries written to `m` one after the other. */
  function Stored(m: map<int, int>, entries: seq<(int, int)>): map<int, int>
    decreases |entries|
  {
    if entries == [] then m else Stored(m[entries[0].0 := entries[0].1], entries[1..])
  }

  lemma {:induction false} StoredAt(m: map<int, int>, entries: seq<(int, int)>, k: int)
    requires DistinctKeys(entries)
    ensures forall i | 0 <= i < |entries| && entries[i].0 == k ::
              k in Stored(m, entries) && Stored(m, entries)[k] == entries[i].1
    ensures (forall i | 0 <= i < |entries| :: entries[i].0 != k) ==>
              (k in Stored(m, entries) <==> k in m) && (k in m ==> Stored(m, entries)[k] == m[k])
    decreases |entries|
  {
    if entries != [] {
      var next := m[entries[0].0 := entries[0].1];
      StoredAt(next, entries[1..], k);
      assert forall i | 0 < i < |entries| :: entries[i] == entries[1..][i - 1];
    }
  }

  /** Whatever the order, storing a listing of `m` into an empty map gives `m`. */
  lemma StoredIsMap(entries: seq<(int, int)>, m: map<int, int>)
    requires Lists(entries, m)
    ensures Stored(map[], entries) == m
  {
    var r := Stored(map[], entries);
    forall k ensures (k in r <==> k in m) && (k in m ==> r[k] == m[k]) {
      StoredAt(map[], entries, k);
      if k in m {
        var i :| 0 <= i < |entries| && entries[i].0 == k;
      }
    }
  }

  lemma TwoTextsCons<T>(text: T -> string, a: T, b: T, xs: seq<T>, rest: string)
    ensures Texts(text, [a, b] + xs) + rest == text(a) + (text(b) + (Texts(text, xs) + rest))
  {
    var all := [a, b] + xs;
    assert all[0] == a && all[1..] == [b] + xs;
    assert ([b] + xs)[0] == b && ([b] + xs)[1..] == xs;
    TextsCons(text, all, rest);
    TextsCons(text, [b] + xs, rest);
  }

  lemma FirstPairInt32(a: int, b: int, xs: seq<int>)
    requires AllInt32([a, b] + xs)
    ensures FitsInt32(a) && FitsInt32(b) && AllInt32(xs)
  {
    var all := [a, b] + xs;
    assert all[0] == a && all[1] == b;
    assert forall i | 0 <= i < |xs| :: xs[i] == all[i + 2];
  }

  lemma {:induction false} EntriesReadBack(
      read: (In, int) -> (int, In), text: int -> string, s: In, entries: seq<(int, int)>, rest: string,
      m: map<int, int>, k: int, v: int)
    requires ReadsBack(read, text, Second, FitsInt32)
    requires At(s, Texts(text, Pairs(entries)) + rest) && AllInt32(Pairs(entries))
    ensures Entries(read, |entries|, m, s, k, v).0 == Stored(m, entries)
    ensures At(Entries(read, |entries|, m, s, k, v).1, rest)
    decreases |entries|
  {
    if entries == [] {
      TextsCons(text, [], rest);
    } else {
      var (key, val) := entries[0];
      var last := Texts(text, Pairs(entries[1..])) + rest;
      TwoTextsCons(text, key, val, Pairs(entries[1..]), rest);
      FirstPairInt32(key, val, Pairs(entries[1..]));
      var s1 := read(s, k).1;
      assert ReadsBackAt(read, text, Second, FitsInt32, s, k, key, text(val) + last);
      assert ReadsBackAt(read, text, Second, FitsInt32, s1, v, val, last);
      EntriesReadBack(read, text, read(s1, v).1, entries[1..], rest, m[key := val], key, val);
    }
  }

  lemma {:induction false} MapReadsStored(s: In, entries: seq<(int, int)>, rest: string)
    requires At(s, MapText(entries) + rest) && AllInt32(Pairs(entries))
    requires |entries| < 0x1_0000_0000_0000_0000
    ensures IntoMap(map[], s).0 == Stored(map[], entries) && At(IntoMap(map[], s).1, rest)
  {
    SizeThenRest(s, |entries|, IntsText(Pairs(entries)), rest);
    MapReadsFrom(s, ExtractSize(s).1, entries, rest);
  }

  lemma MapReadsFrom(s: In, s1: In, entries: seq<(int, int)>, rest: string)
    requires ExtractSize(s) == (|entries|, s1)
    requires At(s1, IntsText(Pairs(entries)) + rest) && AllInt32(Pairs(entries))
    ensures IntoMap(map[], s).0 == Stored(map[], entries) && At(IntoMap(map[], s).1, rest)
  {
    IntsReadBack();
    EntriesReadBack(ExtractInt, IntText, s1, entries, rest, map[], 0, 0);
  }

  // ----- several values in a row -----

  /** A value to serialise; sets and maps with the order in which they are iterated. */
  datatype Value =
    | AnInt(x: int)
    | AVector(xs: seq<int>)
    | ASet(order: seq<int>)
    | AMap(m: map<int, int>, entries: seq<(int, int)>)

  datatype Loaded =
    | LoadedInt(x: int) | LoadedVector(xs: seq<int>) | LoadedSet(set_: set<int>) | LoadedMap(m: map<int, int>)

  ghost predicate Fits(v: Value) {
    match v
    case AnInt(x) => INT_MIN <= x <= INT_MAX
    case AVector(xs) => AllInt32(xs) && |xs| < 0x1_0000_0000_0000_0000
    case ASet(order) => AllInt32(order) && |order| < 0x1_0000_0000_0000_0000
    case AMap(m, entries) => AllInt32(Pairs(entries)) && |entries| < 0x1_0000_0000_0000_0000 && Lists(entries, m)
  }

  function ValueText(v: Value): string {
    match v
    case AnInt(x) => IntText(x)
    case AVector(xs) => ContainerText(xs)
    case ASet(order) => ContainerText(order)
    case AMap(_, entries) => MapText(entries)
  }

  /** Deserialises into a new value of the same kind as `v`. */
  function Load(v: Value, s: In): (Loaded, In) {
    match v
    case AnInt(_) => var (x, after) := ExtractInt(s, 0); (LoadedInt(x), after)
    case AVector(_) => var (xs, after) := IntoVector([], s); (LoadedVector(xs), after)
    case ASet(_) => var (xs, after) := IntoSet({}, s); (LoadedSet(xs), after)
    case AMap(_, _) => var (m, after) := IntoMap(map[], s); (LoadedMap(m), after)
  }

  function Contents(v: Value): Loaded {
    match v
    case AnInt(x) => LoadedInt(x)
    case AVector(xs) => LoadedVector(xs)
    case ASet(order) => LoadedSet(ToSet(order))
    case AMap(m, _) => LoadedMap(m)
  }

  function AllText(vs: seq<Value>): string {
    Texts(ValueText, vs)
  }

  function LoadAll(vs: seq<Value>, s: In): (seq<Loaded>, In)
    decreases |vs|
  {
    if vs == [] then ([], s)
    else
      var (x, s1) := Load(vs[0], s);
      var (xs, s2) := LoadAll(vs[1..], s1);
      ([x] + xs, s2)
  }

  lemma ValueReadsBack(v: Value, s: In, rest: string)
    requires Fits(v) && At(s, ValueText(v) + rest)
    ensures Load(v, s).0 == Contents(v) && At(Load(v, s).1, rest)
  {
    match v
    case AnInt(x) => ScanReadsInt(s, x, rest);
    case AVector(xs) => ContainerReadsBack(s, [], xs, rest);
    case ASet(order) => ContainerReadsBack(s, [], order, rest);
    case AMap(m, entries) =>
      MapReadsStored(s, entries, rest);
      StoredIsMap(entries, m);
  }

  /**
   * Values serialised one after the other are read back in order into empty values, whatever order
   * sets and maps were iterated in; the stream stays good, and nothing of theirs is left but a blank.
   */
  lemma {:induction false} AllReadBack(vs: seq<Value>, s: In, rest: string)
    requires forall i | 0 <= i < |vs| :: Fits(vs[i])
    requires At(s, AllText(vs) + rest)
    ensures var (got, after) := LoadAll(vs, s);
            At(after, rest) && |got| == |vs| && forall i | 0 <= i < |vs| :: got[i] == Contents(vs[i])
    decreases |vs|
  {
    TextsCons(ValueText, vs, rest);
    if vs != [] {
      ValueReadsBack(vs[0], s, AllText(vs[1..]) + rest);
      AllReadBack(vs[1..], Load(vs[0], s).1, rest);
    }
  }

  // ----- containers of containers -----

  /** The element read of a vector of vectors: the inner vector is not cleared. */
  function ExtractVector(s: In, t: seq<int>): (seq<int>, In) {
    IntoVector(t, s)
  }

  function Behind(before: seq<int>, xs: seq<int>): seq<int> {
    before + xs
  }

  predicate FitsVector(xs: seq<int>) {
    |xs| < 0x1_0000_0000_0000_0000 && AllInt32(xs)
  }

  lemma {:induction false} VectorReadsBack(s: In, t: seq<int>, xs: seq<int>, rest: string)
    ensures ReadsBackAt(ExtractVector, ContainerText, Behind, FitsVector, s, t, xs, rest)
  {
    if FitsVector(xs) && At(s, ContainerText(xs) + rest) {
      ContainerReadsBack(s, t, xs, rest);
    }
  }

  lemma {:induction false} VectorsReadBack()
    ensures ReadsBack(ExtractVector, ContainerText, Behind, FitsVector)
  {
    forall s: In, t: seq<int>, xs: seq<int>, rest: string
      ensures ReadsBackAt(ExtractVector, ContainerText, Behind, FitsVector, s, t, xs, rest)
    {
      VectorReadsBack(s, t, xs, rest);
    }
  }

  /** Each inner vector with `before` and all earlier ones in front of it. */
  function Accumulated(before: seq<int>, parts: seq<seq<int>>): seq<seq<int>> {
    Afters(Behind, before, parts)
  }

  function PartsText(parts: seq<seq<int>>): string {
    Texts(ContainerText, parts)
  }

  lemma {:induction false} AccumulatedSameIff(before: seq<int>, parts: seq<seq<int>>)
    ensures Accumulated(before, parts) == parts <==>
              parts == [] || (before == [] && forall i | 0 <= i < |parts| - 1 :: parts[i] == [])
    decreases |parts|
  {
    if parts != [] {
      var rest := parts[1..];
      AccumulatedSameIff(before + parts[0], rest);
      var got := Accumulated(before, parts);
      assert got == parts <==> before + parts[0] == parts[0] && got[1..] == rest;
      assert got[1..] == Accumulated(before + parts[0], rest);
      assert before + parts[0] == parts[0] <==> before == [] by {
        assert |before + parts[0]| == |before| + |parts[0]|;
      }
      assert forall i | 0 <= i < |rest| - 1 :: rest[i] == parts[i + 1];
      assert forall i | 0 < i < |parts| - 1 :: parts[i] == rest[i - 1];
    }
  }

  /** What `serialize` writes for a vector of vectors. */
  function NestedText(parts: seq<seq<int>>): string {
    IntText(|parts|) + PartsText(parts)
  }

  /** `deserialize` into an empty vector of vectors: the size, then that many elements. */
  function IntoVectors(s: In): (seq<seq<int>>, In) {
    var (size, after) := ExtractSize(s);
    ReadMany(ExtractVector, size, after, [])
  }

  /**
   * A vector of vectors does not survive: each inner vector comes back with all earlier ones in
   * front of it, so it is restored exactly when all inner vectors but the last are empty.
   */
  lemma NestedRestoredIff(s: In, parts: seq<seq<int>>, rest: string)
    requires At(s, NestedText(parts) + rest) && |parts| < 0x1_0000_0000_0000_0000
    requires forall i | 0 <= i < |parts| :: FitsVector(parts[i])
    ensures IntoVectors(s).0 == Accumulated([], parts) && At(IntoVectors(s).1, rest)
    ensures IntoVectors(s).0 == parts <==> forall i | 0 <= i < |parts| - 1 :: parts[i] == []
  {
    SizeThenRest(s, |parts|, PartsText(parts), rest);
    VectorsReadBack();
    ManyReadBack(ExtractVector, ContainerText, Behind, FitsVector, parts, ExtractSize(s).1, [], rest);
    AccumulatedSameIff([], parts);
  }
}
