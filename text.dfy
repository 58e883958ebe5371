/**
 * Character-sequence helpers shared by the models: the handful of QString /
 * QByteArray operations the modelled code relies on (startsWith, indexOf,
 * lastIndexOf, trimmed, split, remove), each stated by what it returns.
 */
module Text {

  datatype Option<T> = None | Some(value: T) {
    function GetOr(default: T): T {
      match this
      case Some(v) => v
      case None => default
    }
  }

  predicate StartsWith<T(==)>(s: seq<T>, prefix: seq<T>) {
    |prefix| <= |s| && s[..|prefix|] == prefix
  }

  predicate EndsWith<T(==)>(s: seq<T>, suffix: seq<T>) {
    |suffix| <= |s| && s[|s| - |suffix|..] == suffix
  }

  /** `p` occurs in `s` starting at index `i`. */
  predicate OccursAt<T(==)>(s: seq<T>, p: seq<T>, i: nat) {
    i + |p| <= |s| && s[i..i + |p|] == p
  }

  predicate Contains<T(==)>(s: seq<T>, p: seq<T>) {
    exists i: nat :: i <= |s| && OccursAt(s, p, i)
  }

  /** QByteArray::indexOf(p, from) / QString::indexOf(p, from): the first occurrence at or after `from`. */
  function IndexOfFrom<T(==)>(s: seq<T>, p: seq<T>, from: nat): (r: Option<nat>)
    ensures r.Some? ==> from <= r.value && OccursAt(s, p, r.value)
    ensures r.Some? ==> forall j: nat :: from <= j < r.value ==> !OccursAt(s, p, j)
    ensures r.None? ==> forall j: nat :: from <= j ==> !OccursAt(s, p, j)
    decreases |s| - from
  {
    if from + |p| > |s| then None
    else if OccursAt(s, p, from) then Some(from)
    else IndexOfFrom(s, p, from + 1)
  }

  /** The first index of the element `x`, the single-character indexOf. */
  function IndexOf<T(==)>(s: seq<T>, x: T): (r: Option<nat>)
    ensures r.Some? ==> r.value < |s| && s[r.value] == x && x !in s[..r.value]
    ensures r.None? <==> x !in s
  {
    if x !in s then None
    else if s[0] == x then Some(0)
    else
      var k := IndexOf(s[1..], x);
      assert s[1..][..k.value] == s[1..k.value + 1];
      Some(k.value + 1)
  }

  /** QString::lastIndexOf(p): the last occurrence of `p`. */
  function LastIndexOf<T(==)>(s: seq<T>, p: seq<T>): (r: Option<nat>)
    ensures r.Some? ==> OccursAt(s, p, r.value)
    ensures r.Some? ==> forall j: nat :: r.value < j ==> !OccursAt(s, p, j)
    ensures r.None? ==> forall j: nat :: !OccursAt(s, p, j)
  {
    LastIndexBelow(s, p, |s| + 1)
  }

  /** The last occurrence of `p` starting strictly below `bound`. */
  function LastIndexBelow<T(==)>(s: seq<T>, p: seq<T>, bound: nat): (r: Option<nat>)
    requires bound <= |s| + 1
    ensures r.Some? ==> r.value < bound && OccursAt(s, p, r.value)
    ensures r.Some? ==> forall j: nat :: r.value < j < bound ==> !OccursAt(s, p, j)
    ensures r.None? ==> forall j: nat :: j < bound ==> !OccursAt(s, p, j)
  {
    if bound == 0 then None
    else if OccursAt(s, p, bound - 1) then Some(bound - 1)
    else LastIndexBelow(s, p, bound - 1)
  }

  /** QChar::isSpace restricted to the ASCII white-space characters. */
  predicate IsSpace(c: char) {
    c == ' ' || c == '\t' || c == '\n' || c == '\r' || c == '\U{B}' || c == '\U{C}'
  }

  predicate IsDigit(c: char) {
    '0' <= c <= '9'
  }

  /** No element occurs twice. */
  predicate NoDuplicates<T(==)>(s: seq<T>) {
    forall i, j :: 0 <= i < j < |s| ==> s[i] != s[j]
  }

  /** Number of leading white-space characters. */
  function LeadingSpace(s: string): (n: nat)
    ensures n <= |s|
    ensures forall k :: 0 <= k < n ==> IsSpace(s[k])
    ensures n < |s| ==> !IsSpace(s[n])
  {
    if s == [] || !IsSpace(s[0]) then 0 else 1 + LeadingSpace(s[1..])
  }

  /** Number of trailing white-space characters. */
  function TrailingSpace(s: string): (n: nat)
    ensures n <= |s|
    ensures forall k :: |s| - n <= k < |s| ==> IsSpace(s[k])
    ensures n < |s| ==> !IsSpace(s[|s| - 1 - n])
  {
    if s == [] || !IsSpace(s[|s| - 1]) then 0 else 1 + TrailingSpace(s[..|s| - 1])
  }

  /** QString::trimmed: drop white space from both ends, keep the middle untouched. */
  function Trim(s: string): (r: string)
    ensures |r| <= |s|
    ensures exists i: nat :: OccursAt(s, r, i)
    ensures r != [] ==> !IsSpace(r[0]) && !IsSpace(r[|r| - 1])
    ensures (s == [] || (!IsSpace(s[0]) && !IsSpace(s[|s| - 1]))) ==> r == s
  {
    var a := LeadingSpace(s);
    var t := s[a..];
    var b := TrailingSpace(t);
    var r := t[..|t| - b];
    assert OccursAt(s, r, a);
    r
  }

  /** Parts joined back with the separator between them. */
  function Join<T>(parts: seq<seq<T>>, sep: T): seq<T>
  {
    if parts == [] then []
    else if |parts| == 1 then parts[0]
    else parts[0] + [sep] + Join(parts[1..], sep)
  }

  /** QString::split(sep) / QByteArray::split(sep), keeping empty parts. */
  function Split<T(==)>(s: seq<T>, sep: T): (parts: seq<seq<T>>)
    ensures |parts| >= 1
    ensures forall k :: 0 <= k < |parts| ==> sep !in parts[k]
    ensures Join(parts, sep) == s
  {
    match IndexOf(s, sep)
    case None => [s]
    case Some(i) =>
      var rest := Split(s[i + 1..], sep);
      assert s == s[..i] + [sep] + s[i + 1..];
      [s[..i]] + rest
  }

  /**
   * QString::remove(p): repeatedly remove the first occurrence found at or
   * after the position of the previous removal.
   */
  function RemoveAll<T(==)>(s: seq<T>, p: seq<T>): (r: seq<T>)
    ensures |r| <= |s|
    ensures !Contains(s, p) ==> r == s
  {
    if p == [] then s else RemoveAllFrom(s, p, 0)
  }

  function RemoveAllFrom<T(==)>(s: seq<T>, p: seq<T>, from: nat): (r: seq<T>)
    requires p != []
    ensures |r| <= |s|
    ensures (forall j: nat :: from <= j ==> !OccursAt(s, p, j)) ==> r == s
    decreases |s|
  {
    match IndexOfFrom(s, p, from)
    case None => s
    case Some(k) => RemoveAllFrom(s[..k] + s[k + |p|..], p, k)
  }

  /** QList::removeAll(x): every element equal to `x` dropped, the others kept in order. */
  function Without<T(==,!new)>(s: seq<T>, x: T): (r: seq<T>)
    ensures |r| <= |s|
    ensures forall y :: y in r <==> y in s && y != x
    ensures x !in s ==> r == s
  {
    if s == [] then []
    else if s[0] == x then Without(s[1..], x)
    else
      assert s == [s[0]] + s[1..];
      [s[0]] + Without(s[1..], x)
  }
}
