/**
 The mapping between a source index and the name of the topic that carries its
 point clouds. The node subscribes to "pointcloud" followed by the decimal
 index; the manager recovers the index by skipping the first ten characters of
 the topic name and reading the rest with `atol`.
 */
module TopicNames {

  /** The prefix the node puts in front of every subscribed topic. */
  const Prefix: string := "pointcloud"

  /** Number of leading characters the manager skips; hard-coded, not derived from a prefix check. */
  const PrefixLength: nat := 10

  /** Largest value a `long` holds; `atol` has no defined result above it. */
  const MaxLong: nat := 0x7FFF_FFFF_FFFF_FFFF

  predicate IsDigit(c: char) {
    '0' <= c <= '9'
  }

  predicate IsDigitString(s: string) {
    forall i :: 0 <= i < |s| ==> IsDigit(s[i])
  }

  /** A decimal numeral as `std::to_string` writes it: non-empty, no leading zero except "0" itself. */
  predicate IsCanonical(s: string) {
    && |s| > 0
    && IsDigitString(s)
    && (s[0] == '0' ==> |s| == 1)
  }

  function DigitValue(c: char): (d: nat)
    requires IsDigit(c)
    ensures d < 10
  {
    c as int - '0' as int
  }

  function DigitChar(d: nat): (c: char)
    requires d < 10
    ensures IsDigit(c) && DigitValue(c) == d
    ensures c == '0' <==> d == 0
  {
    ('0' as int + d) as char
  }

  function Pow10(k: nat): (p: nat)
    ensures p >= 1
  {
    if k == 0 then 1 else 10 * Pow10(k - 1)
  }

  /**
   The value `atol` reads from a string made only of decimal digits, most significant
   first; a string of `k` digits denotes a number below `10^k`.
   */
  function ParseDigits(s: string): (n: nat)
    requires IsDigitString(s)
    ensures n < Pow10(|s|)
    decreases |s|
  {
    if s == [] then 0 else 10 * ParseDigits(s[..|s| - 1]) + DigitValue(s[|s| - 1])
  }

  /** The decimal numeral `std::to_string` produces for a non-negative integer. */
  function Decimal(n: nat): (s: string)
    ensures IsCanonical(s)
    ensures n > 0 ==> s[0] != '0'
  {
    if n < 10 then [DigitChar(n)] else Decimal(n / 10) + [DigitChar(n % 10)]
  }

  /** Reading back what `Decimal` wrote yields the original number. */
  lemma {:induction false} ParseDecimal(n: nat)
    ensures ParseDigits(Decimal(n)) == n
  {
    if n >= 10 {
      var s := Decimal(n);
      assert s[..|s| - 1] == Decimal(n / 10);
      ParseDecimal(n / 10);
    }
  }

  /** A digit string whose first digit is not zero denotes a positive number. */
  lemma {:induction false} LeadingDigitPositive(s: string)
    requires |s| > 0 && IsDigitString(s) && s[0] != '0'
    ensures ParseDigits(s) > 0
  {
    if |s| > 1 {
      var p := s[..|s| - 1];
      assert p[0] == s[0];
      LeadingDigitPositive(p);
    }
  }

  /** Conversely, writing out the value of a canonical numeral gives back the same characters. */
  lemma {:induction false} DecimalParse(s: string)
    requires IsCanonical(s)
    ensures Decimal(ParseDigits(s)) == s
  {
    var n := ParseDigits(s);
    var last := s[|s| - 1];
    if |s| == 1 {
      assert ParseDigits(s[..0]) == 0;
      assert n == DigitValue(last);
      assert DigitChar(n) == last;
    } else {
      var p := s[..|s| - 1];
      assert p[0] == s[0];
      LeadingDigitPositive(p);
      DecimalParse(p);
      assert n / 10 == ParseDigits(p) && n % 10 == DigitValue(last);
      assert DigitChar(n % 10) == last;
      assert s == p + [last];
    }
  }

  /**
   What `addCloud` requires of a topic name: at least ten characters, followed by a
   non-empty run of digits whose value fits in a `long`. The first ten characters
   are never inspected.
   */
  predicate WellFormedTopic(name: string) {
    && |name| > PrefixLength
    && IsDigitString(name[PrefixLength..])
    && ParseDigits(name[PrefixLength..]) <= MaxLong
  }

  /**
   `topicName.substr(10)` read with `atol`: the slot index a topic addresses. The index
   fits in a `long`, and when the suffix is written as `to_string` writes numbers, it
   is the number that suffix spells.
   */
  function TopicNameToIndex(name: string): (i: nat)
    requires WellFormedTopic(name)
    ensures i <= MaxLong
    ensures IsCanonical(name[PrefixLength..]) ==> Decimal(i) == name[PrefixLength..]
  {
    var suffix := name[PrefixLength..];
    if IsCanonical(suffix) then DecimalParse(suffix); ParseDigits(suffix) else ParseDigits(suffix)
  }

  /**
   The topic name the node subscribes to for source `i`: the ten-character prefix
   "pointcloud" followed by a canonical decimal numeral.
   */
  function TopicName(i: nat): (name: string)
    ensures |name| > PrefixLength
    ensures name[..PrefixLength] == Prefix
    ensures IsCanonical(name[PrefixLength..])
  {
    Prefix + Decimal(i)
  }

  /** Every name the node builds is accepted by the manager and addresses the source it was built for. */
  lemma IndexOfTopicName(i: nat)
    requires i <= MaxLong
    ensures WellFormedTopic(TopicName(i))
    ensures TopicNameToIndex(TopicName(i)) == i
  {
    var name := TopicName(i);
    assert name[PrefixLength..] == Decimal(i);
    ParseDecimal(i);
  }

  /**
   The node subscribes to sources 0 .. n-1; each of those topics addresses a slot
   inside a table of n slots, so the missing bounds check in `addCloud` is never hit
   by the node's own subscriptions.
   */
  lemma SubscribedTopicsInRange(n: nat, i: nat)
    requires i < n && i <= MaxLong
    ensures WellFormedTopic(TopicName(i))
    ensures TopicNameToIndex(TopicName(i)) < n
  {
    IndexOfTopicName(i);
  }

  /** A topic that starts with "pointcloud" and ends in a canonical numeral is the name of its own index. */
  lemma TopicNameOfIndex(name: string)
    requires WellFormedTopic(name)
    requires name[..PrefixLength] == Prefix
    requires IsCanonical(name[PrefixLength..])
    ensures TopicName(TopicNameToIndex(name)) == name
  {
    DecimalParse(name[PrefixLength..]);
    assert name == name[..PrefixLength] + name[PrefixLength..];
  }

  /** Distinct sources get distinct topic names. */
  lemma TopicNameInjective(i: nat, j: nat)
    requires TopicName(i) == TopicName(j)
    ensures i == j
  {
    assert Decimal(i) == TopicName(i)[PrefixLength..];
    assert Decimal(j) == TopicName(j)[PrefixLength..];
    ParseDecimal(i);
    ParseDecimal(j);
  }

  /**
   Only the characters after the first ten matter: names that differ only in their
   first ten characters address the same slot, whatever those characters are.
   */
  lemma PrefixIsNotChecked(a: string, b: string)
    requires WellFormedTopic(a)
    requires |b| == |a| && b[PrefixLength..] == a[PrefixLength..]
    ensures WellFormedTopic(b)
    ensures TopicNameToIndex(b) == TopicNameToIndex(a)
  {
  }
}
