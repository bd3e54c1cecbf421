/**
 Composite keys of the purchase table.

 A service is identified by its ServiceId together with its CategoryId (the same
 ServiceId names different services in different categories), and a basket by a
 user together with the year-month in which the services were bought. A service
 key is the decimal renderings of the two integer ids joined with a single "_";
 a basket key is the decimal rendering of the user id, a single "_", and the
 year-month string as it is given. No rendered id contains "_", so splitting a
 key at its first "_" recovers the parts, and two different services (or
 baskets) never share a key.
 */
module Keys {

  datatype Option<T> = None | Some(value: T)

  /** One row of the purchase table. `yearMonth` is the "%Y-%m" rendering of
      CreateDate; date parsing is not modelled, so it is taken as given. */
  datatype Purchase = Purchase(userId: int, serviceId: int, categoryId: int, yearMonth: string)

  /** One row of the prepared table: the two composed keys of a purchase. */
  datatype Entry = Entry(basketId: string, service: string)

  predicate IsDigit(c: char) {
    '0' <= c <= '9'
  }

  predicate AllDigits(s: string) {
    forall i :: 0 <= i < |s| ==> IsDigit(s[i])
  }

  function DigitChar(d: nat): (c: char)
    requires d < 10
    ensures IsDigit(c)
  {
    (('0' as int) + d) as char
  }

  function DigitValue(c: char): (d: nat)
    requires IsDigit(c)
    ensures d < 10
  {
    (c as int) - ('0' as int)
  }

  /** Decimal rendering of a natural number, most significant digit first:
      one or more digits, with no leading zero. */
  function NatToString(n: nat): (s: string)
    ensures |s| >= 1 && AllDigits(s)
    ensures s[0] == '0' ==> n == 0
  {
    if n < 10 then [DigitChar(n)] else NatToString(n / 10) + [DigitChar(n % 10)]
  }

  /** The decimal rendering of an integer as Python writes it: a minus sign
      before the digits of a negative number, no leading zeros. */
  function IntToString(n: int): (s: string)
    ensures |s| >= 1 && '_' !in s
  {
    if n < 0 then "-" + NatToString(-n) else NatToString(n)
  }

  /** The value of a string of decimal digits (0 for the empty string). */
  function DigitsValue(s: string): nat
    requires AllDigits(s)
  {
    if s == [] then 0 else DigitsValue(s[..|s| - 1]) * 10 + DigitValue(s[|s| - 1])
  }

  /** Reads back an id written by IntToString: an optional "-" and one or more digits. */
  function ParseId(s: string): Option<int> {
    if |s| >= 2 && s[0] == '-' && AllDigits(s[1..]) then Some(-(DigitsValue(s[1..]) as int))
    else if |s| >= 1 && AllDigits(s) then Some(DigitsValue(s))
    else None
  }

  lemma {:induction false} NatToStringValue(n: nat)
    ensures DigitsValue(NatToString(n)) == n
  {
    var s := NatToString(n);
    if n < 10 {
      assert s[..|s| - 1] == [];
    } else {
      assert s[..|s| - 1] == NatToString(n / 10);
      NatToStringValue(n / 10);
    }
  }

  /** Rendering an id and reading it back gives the id. */
  lemma IdRoundTrip(n: int)
    ensures ParseId(IntToString(n)) == Some(n)
  {
    var s := IntToString(n);
    if n < 0 {
      assert s[1..] == NatToString(-n);
      NatToStringValue(-n);
    } else {
      assert IsDigit(s[0]);
      NatToStringValue(n);
    }
  }

  /** The position of the first occurrence of `c` in `s`, if any. */
  function FirstIndexOf(s: string, c: char): (r: Option<nat>)
    ensures r.Some? ==> r.value < |s| && s[r.value] == c && c !in s[..r.value]
    ensures r.None? ==> c !in s
  {
    if s == [] then None
    else if s[0] == c then Some(0)
    else match FirstIndexOf(s[1..], c)
      case None => None
      case Some(i) =>
        assert s[..i + 1] == [s[0]] + s[1..][..i];
        Some(i + 1)
  }

  /** The parts of `s` before and after its first `sep`, if it has one. */
  function SplitAtFirst(s: string, sep: char): Option<(string, string)> {
    match FirstIndexOf(s, sep)
    case None => None
    case Some(i) => Some((s[..i], s[i + 1..]))
  }

  /** Joining with a separator that the left part does not contain is undone by SplitAtFirst. */
  lemma SplitAtFirstOfJoin(left: string, right: string, sep: char)
    requires sep !in left
    ensures SplitAtFirst(left + [sep] + right, sep) == Some((left, right))
  {
    var s := left + [sep] + right;
    var r := FirstIndexOf(s, sep);
    assert s[|left|] == sep;
    assert r.Some?;
    var i := r.value;
    assert s[..|left|] == left;
    assert i == |left|;
    assert s[..i] == left;
    assert s[i + 1..] == right;
  }

  /** Reads a service key back into (ServiceId, CategoryId). */
  function SplitServiceKey(key: string): Option<(int, int)> {
    match SplitAtFirst(key, '_')
    case None => None
    case Some((l, r)) =>
      match (ParseId(l), ParseId(r))
      case (Some(serviceId), Some(categoryId)) => Some((serviceId, categoryId))
      case _ => None
  }

  /** Reads a basket key back into (UserId, year-month). */
  function SplitBasketKey(key: string): Option<(int, string)> {
    match SplitAtFirst(key, '_')
    case None => None
    case Some((l, r)) =>
      match ParseId(l)
      case Some(userId) => Some((userId, r))
      case None => None
  }

  /** The "Service" column: ServiceId and CategoryId joined by "_". Splitting at
      the first "_" recovers both ids. */
  function ServiceKey(serviceId: int, categoryId: int): (key: string)
    ensures SplitServiceKey(key) == Some((serviceId, categoryId))
  {
    var l, r := IntToString(serviceId), IntToString(categoryId);
    SplitAtFirstOfJoin(l, r, '_');
    IdRoundTrip(serviceId);
    IdRoundTrip(categoryId);
    l + "_" + r
  }

  /** The "BasketID" column: UserId and the year-month joined by "_". Splitting at
      the first "_" recovers both, whatever the year-month string holds. */
  function BasketKey(userId: int, yearMonth: string): (key: string)
    ensures SplitBasketKey(key) == Some((userId, yearMonth))
  {
    var l := IntToString(userId);
    SplitAtFirstOfJoin(l, yearMonth, '_');
    IdRoundTrip(userId);
    l + "_" + yearMonth
  }

  /** Different (ServiceId, CategoryId) pairs get different service keys. */
  lemma ServiceKeyInjective(s1: int, c1: int, s2: int, c2: int)
    requires ServiceKey(s1, c1) == ServiceKey(s2, c2)
    ensures s1 == s2 && c1 == c2
  {
    assert SplitServiceKey(ServiceKey(s1, c1)) == SplitServiceKey(ServiceKey(s2, c2));
  }

  /** Different (UserId, year-month) pairs get different basket keys. */
  lemma BasketKeyInjective(u1: int, m1: string, u2: int, m2: string)
    requires BasketKey(u1, m1) == BasketKey(u2, m2)
    ensures u1 == u2 && m1 == m2
  {
    assert SplitBasketKey(BasketKey(u1, m1)) == SplitBasketKey(BasketKey(u2, m2));
  }

  /** The two key columns of the purchase table, row by row. */
  function Prepare(rows: seq<Purchase>): (entries: seq<Entry>)
    ensures |entries| == |rows|
    ensures forall i :: 0 <= i < |rows| ==>
      SplitBasketKey(entries[i].basketId) == Some((rows[i].userId, rows[i].yearMonth)) &&
      SplitServiceKey(entries[i].service) == Some((rows[i].serviceId, rows[i].categoryId))
  {
    seq(|rows|, i requires 0 <= i < |rows| =>
      Entry(BasketKey(rows[i].userId, rows[i].yearMonth), ServiceKey(rows[i].serviceId, rows[i].categoryId)))
  }
}
