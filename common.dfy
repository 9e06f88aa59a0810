/** Values shared by every module of the model: Java's nullable references,
    exceptions as failure values, and the few java.lang string operations
    the services rely on. */
module Common {

  /** A Java reference that may be null. */
  datatype Option<+T> = None | Some(value: T)

  /** The outcome of a Java call: a returned value, or a thrown exception. */
  datatype Result<+T, +E> = Ok(value: T) | Err(error: E)

  /** The outcome of a Java call returning void. */
  datatype Outcome<+E> = Pass | Fail(error: E)

  /** The exceptions the services throw on purpose. */
  datatype Failure =
    | NotFound(message: string)
    | IllegalArgument(message: string)
    /** What the list and paging library calls throw on a bad page
        request: the IndexOutOfBoundsException and IllegalArgumentException
        of List.subList and the IllegalArgumentException of PageRequest.of,
        collapsed into one value. */
    | InvalidPageRequest
    /** Spring Data JDBC's refusal to save an entity that carries an id no
        row has (an update that matched nothing). */
    | UpdateOfMissingRow

  /** java.lang.Character.isWhitespace: the Unicode space, line and
      paragraph separators except the three no-break spaces, plus the
      ASCII controls HT, LF, VT, FF, CR and FS, GS, RS, US. */
  predicate IsWhitespace(c: char)
  {
    || ('\t' <= c <= '\r')
    || ('\U{001C}' <= c <= ' ')
    || c == '\U{1680}'
    || ('\U{2000}' <= c <= '\U{2006}')
    || ('\U{2008}' <= c <= '\U{200A}')
    || c == '\U{2028}' || c == '\U{2029}'
    || c == '\U{205F}' || c == '\U{3000}'
  }

  /** java.lang.String.isBlank: empty, or white space only. */
  predicate IsBlank(s: string)
  {
    forall i :: 0 <= i < |s| ==> IsWhitespace(s[i])
  }

  /** `s == null || s.isBlank()`, the guard every validator here uses. */
  predicate IsNullOrBlank(s: Option<string>)
  {
    s.None? || IsBlank(s.value)
  }

  /** java.lang.String.length(): the number of UTF-16 code units, so a
      character outside the Basic Multilingual Plane counts twice. */
  function Utf16Length(s: string): (n: nat)
    ensures |s| <= n <= 2 * |s|
    ensures (forall i :: 0 <= i < |s| ==> s[i] as int <= 0xFFFF) ==> n == |s|
  {
    if s == [] then 0
    else (if s[0] as int > 0xFFFF then 2 else 1) + Utf16Length(s[1..])
  }

  function DigitChar(d: nat): (c: char)
    requires d < 10
    ensures '0' <= c <= '9'
    ensures c as int - '0' as int == d
  {
    ['0', '1', '2', '3', '4', '5', '6', '7', '8', '9'][d]
  }

  predicate IsDigits(s: string)
  {
    forall i :: 0 <= i < |s| ==> '0' <= s[i] <= '9'
  }

  /** The number a string of decimal digits denotes. */
  function DecimalValue(s: string): nat
    requires IsDigits(s)
  {
    if s == [] then 0
    else DecimalValue(s[..|s| - 1]) * 10 + (s[|s| - 1] as int - '0' as int)
  }

  /** Long.toString for a non-negative value: the decimal digits of `n`. */
  function NatToString(n: nat): (s: string)
    ensures |s| >= 1 && IsDigits(s)
    ensures DecimalValue(s) == n
    decreases n
  {
    if n < 10 then [DigitChar(n)]
    else
      var front := NatToString(n / 10);
      var s := front + [DigitChar(n % 10)];
      assert s[..|s| - 1] == front;
      s
  }

  /** The number an optionally '-'-prefixed decimal string denotes. */
  function SignedDecimalValue(s: string): int
    requires |s| >= 1
    requires IsDigits(if s[0] == '-' then s[1..] else s)
  {
    if s[0] == '-' then 0 - DecimalValue(s[1..]) as int else DecimalValue(s) as int
  }

  /** Long.toString, as used when an id is concatenated into a message: a
      '-' exactly for a negative value, then the digits of its magnitude,
      so the text reads back as the value. */
  function IntToString(i: int): (s: string)
    ensures |s| >= 1
    ensures (i < 0) <==> s[0] == '-'
    ensures IsDigits(if s[0] == '-' then s[1..] else s)
    ensures SignedDecimalValue(s) == i
  {
    if i < 0 then
      var digits := NatToString(-i);
      assert ("-" + digits)[1..] == digits;
      "-" + digits
    else NatToString(i)
  }

  /** Different ids give different texts, so a message built from the text
      identifies the id. */
  lemma IntToStringInjective(a: int, b: int)
    ensures IntToString(a) == IntToString(b) <==> a == b
  {
    if IntToString(a) == IntToString(b) {
      assert SignedDecimalValue(IntToString(a)) == SignedDecimalValue(IntToString(b));
    }
  }

  /** The range of Java's 32-bit int. */
  const IntMin := -0x8000_0000
  const IntMax := 0x7FFF_FFFF

  predicate IsInt32(x: int)
  {
    IntMin <= x <= IntMax
  }

  /** Java int arithmetic: the 32-bit two's-complement value congruent to
      `x` modulo 2^32. */
  function Wrap32(x: int): (r: int)
    ensures IsInt32(r)
    ensures (r - x) % 0x1_0000_0000 == 0
    ensures IsInt32(x) ==> r == x
    ensures IntMax < x <= IntMax + 0x1_0000_0000 ==> r == x - 0x1_0000_0000
  {
    var m := x % 0x1_0000_0000;
    if m > IntMax then m - 0x1_0000_0000 else m
  }

  function Min(a: int, b: int): int
  {
    if a <= b then a else b
  }

  /** `order` lists every key of `m` exactly once: the iteration order of a
      hash map, which the source never fixes and the model takes as given. */
  predicate Enumerates<K, V>(order: seq<K>, m: map<K, V>)
  {
    && |order| == |m|
    && (forall i :: 0 <= i < |order| ==> order[i] in m)
    && (forall i, j :: 0 <= i < j < |order| ==> order[i] != order[j])
  }

  /** An enumeration misses no key: distinct entries, all keys of `m`, as
      many as `m` has, so every key of `m` occurs. */
  lemma {:induction false} EnumerationCoversKeys<K, V>(order: seq<K>, m: map<K, V>)
    requires Enumerates(order, m)
    ensures forall k :: k in m ==> k in order
  {
    var listed := set i | 0 <= i < |order| :: order[i];
    assert listed <= m.Keys;
    DistinctCardinality(order);
    assert |listed| == |m.Keys|;
    forall k | k in m ensures k in order {
      var rest := m.Keys - listed;
      assert m.Keys == listed + rest && listed !! rest;
      assert |rest| == 0;
      assert k in listed;
    }
  }

  /** A sequence without repetitions has as many distinct elements as entries. */
  lemma {:induction false} DistinctCardinality<K>(s: seq<K>)
    requires forall i, j :: 0 <= i < j < |s| ==> s[i] != s[j]
    ensures |set i | 0 <= i < |s| :: s[i]| == |s|
  {
    if s != [] {
      var last := |s| - 1;
      DistinctCardinality(s[..last]);
      var front := set i | 0 <= i < last :: s[..last][i];
      var whole := set i | 0 <= i < |s| :: s[i];
      assert whole == front + {s[last]};
      assert s[last] !in front;
    }
  }

  /** The values of `m` in the iteration order `order`: `m.values()`
      copied into a list. */
  function ValuesIn<K, V>(m: map<K, V>, order: seq<K>): (vs: seq<V>)
    requires forall i :: 0 <= i < |order| ==> order[i] in m
    ensures |vs| == |order|
    ensures forall i :: 0 <= i < |order| ==> vs[i] == m[order[i]]
  {
    if order == [] then [] else [m[order[0]]] + ValuesIn(m, order[1..])
  }
}
