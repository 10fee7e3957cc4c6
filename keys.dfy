/**
 * The department-level key of the auto-scheduler. The server writes it as the string
 * `${departmentId}-${level}` and, at the start of each group, rebuilds it by splitting that
 * string at '-' and applying `parseInt` to both halves. The model takes department ids to be
 * decimal numerals and proves that the rebuilt key is the key that was written.
 */
module Keys {
  import opened Common

  datatype DeptLevel = DeptLevel(dept: nat, level: nat)

  predicate IsDigit(c: char) {
    '0' <= c <= '9'
  }

  function DigitChar(d: nat): (c: char)
    requires d < 10
    ensures IsDigit(c)
  {
    (48 + d) as char
  }

  function DigitValue(c: char): (d: nat)
    requires IsDigit(c)
    ensures d < 10
  {
    (c as int - 48) as nat
  }

  predicate AllDigits(s: string) {
    forall i :: 0 <= i < |s| ==> IsDigit(s[i])
  }

  /** A natural number as a JavaScript template literal prints it: decimal, no sign, no padding. */
  function Decimal(n: nat): (s: string)
    ensures |s| > 0 && AllDigits(s)
  {
    if n < 10 then [DigitChar(n)] else Decimal(n / 10) + [DigitChar(n % 10)]
  }

  /** The value of a string of decimal digits. */
  function DigitsValue(s: string): nat
    requires AllDigits(s)
  {
    if s == [] then 0 else DigitsValue(s[..|s| - 1]) * 10 + DigitValue(s[|s| - 1])
  }

  /** The longest prefix of `s` made of decimal digits. */
  function LeadingDigits(s: string): (p: string)
    ensures AllDigits(p) && p <= s
  {
    if s == [] || !IsDigit(s[0]) then [] else [s[0]] + LeadingDigits(s[1..])
  }

  /** `parseInt(s, 10)` on unsigned input; `None` stands for NaN (no leading digit). */
  function ParseInt(s: string): Option<nat> {
    var p := LeadingDigits(s);
    if p == [] then None else Some(DigitsValue(p))
  }

  /** The first index of `c` in `s` (`String.prototype.indexOf`). */
  function IndexOfChar(s: string, c: char): (i: nat)
    requires c in s
    ensures i < |s| && s[i] == c && c !in s[..i]
  {
    if s[0] == c then 0 else 1 + IndexOfChar(s[1..], c)
  }

  /** `String.prototype.split` with a one-character separator. */
  function Split(s: string, sep: char): (parts: seq<string>)
    ensures |parts| >= 1
    decreases |s|
  {
    if sep in s then
      var i := IndexOfChar(s, sep);
      [s[..i]] + Split(s[i + 1..], sep)
    else [s]
  }

  /** `${deptId}-${lvl}` */
  function FormatKey(k: DeptLevel): string {
    Decimal(k.dept) + "-" + Decimal(k.level)
  }

  /**
   * `const [deptIdStr, lvlStr] = key.split('-')` followed by `parseInt` of both halves;
   * `None` when either half is NaN.
   */
  function ParseKey(s: string): Option<DeptLevel> {
    var parts := Split(s, '-');
    if |parts| < 2 then None
    else
      match (ParseInt(parts[0]), ParseInt(parts[1]))
      case (Some(d), Some(l)) => Some(DeptLevel(d, l))
      case _ => None
  }

  lemma {:induction false} DigitsValueOfDecimal(n: nat)
    ensures DigitsValue(Decimal(n)) == n
  {
    var s := Decimal(n);
    if n >= 10 {
      DigitsValueOfDecimal(n / 10);
      assert s[..|s| - 1] == Decimal(n / 10);
    }
  }

  lemma {:induction false} LeadingDigitsOfDigits(s: string)
    requires AllDigits(s)
    ensures LeadingDigits(s) == s
  {
    if s != [] {
      LeadingDigitsOfDigits(s[1..]);
    }
  }

  /** `parseInt` reads back exactly the number a template literal printed. */
  lemma ParseIntOfDecimal(n: nat)
    ensures ParseInt(Decimal(n)) == Some(n)
  {
    LeadingDigitsOfDigits(Decimal(n));
    DigitsValueOfDecimal(n);
  }

  lemma SplitTwo(a: string, b: string, sep: char)
    requires sep !in a && sep !in b
    ensures Split(a + [sep] + b, sep) == [a, b]
  {
    var s := a + [sep] + b;
    assert s[|a|] == sep;
    var i := IndexOfChar(s, sep);
    assert forall j :: 0 <= j < |a| ==> s[j] == a[j] && a[j] in a;
    assert i >= |a|;
    assert i <= |a| by {
      assert forall j :: 0 <= j < i ==> s[..i][j] == s[j];
    }
    assert s[..i] == a;
    assert s[i + 1..] == b;
  }

  /** The key rebuilt at the start of a group is the key the group was filed under. */
  lemma RebuiltKeyRoundTrip(k: DeptLevel)
    ensures ParseKey(FormatKey(k)) == Some(k)
  {
    var a, b := Decimal(k.dept), Decimal(k.level);
    assert forall i :: 0 <= i < |a| ==> a[i] != '-';
    assert forall i :: 0 <= i < |b| ==> b[i] != '-';
    assert FormatKey(k) == a + ['-'] + b;
    SplitTwo(a, b, '-');
    ParseIntOfDecimal(k.dept);
    ParseIntOfDecimal(k.level);
  }

  /** The key the scheduler charges while working through the group filed under `k`. */
  function RebuildKey(k: DeptLevel): (r: DeptLevel)
    ensures r == k
  {
    RebuiltKeyRoundTrip(k);
    ParseKey(FormatKey(k)).value
  }
}
