/**
 Spreading of StatefulSet volumes with immediate binding: getPVCNameHashAndIndexOffset and the
 shift of the requisite terms (pkg/controller/topology.go). The hash is any function to uint32.
 */
module Spreading {
  import opened Orders

  const TWO_32: nat := 0x1_0000_0000

  /** strings.LastIndexByte(s, '-'), or -1 */
  function LastDash(s: string): (i: int)
    ensures -1 <= i < |s|
    ensures i >= 0 ==> s[i] == '-'
    ensures forall k | i < k < |s| :: s[k] != '-'
  {
    if s == "" then -1
    else if s[|s| - 1] == '-' then |s| - 1
    else LastDash(s[..|s| - 1])
  }

  function Decimal(s: string): nat {
    if s == "" then 0
    else Decimal(s[..|s| - 1]) * 10 + if '0' <= s[|s| - 1] <= '9' then (s[|s| - 1] - '0') as nat else 0
  }

  predicate IsNumeral(s: string) {
    s != "" && forall c | c in s :: '0' <= c <= '9'
  }

  /** strconv.ParseUint(s, 10, 32) */
  function ParseUint32(s: string): Option<nat> {
    if IsNumeral(s) && Decimal(s) < TWO_32 then Some(Decimal(s)) else None
  }

  /** The hash and the index for a claim name that is not empty. */
  function HashAndIndex(hash: string -> nat, pvcName: string): (nat, nat) {
    var lastDash := LastDash(pvcName);
    if lastDash == -1 then (hash(pvcName), 0)
    else
      match ParseUint32(pvcName[lastDash + 1..])
      case None => (hash(pvcName), 0)
      case Some(id) =>
        var prefix := pvcName[..lastDash];
        var dash := LastDash(prefix);
        (hash(if dash == -1 then prefix else prefix[dash + 1..]), id)
  }

  lemma LastDashOf(s: string, i: int)
    requires 0 <= i < |s| && s[i] == '-' && forall k | i < k < |s| :: s[k] != '-'
    ensures LastDash(s) == i
  {
  }

  /** Claims of one StatefulSet member get the same hash and index, whatever the claim template is called. */
  lemma StatefulSetMembers(hash: string -> nat, claim: string, statefulSet: string, ordinal: string)
    requires '-' !in statefulSet && IsNumeral(ordinal) && Decimal(ordinal) < TWO_32
    ensures HashAndIndex(hash, claim + "-" + statefulSet + "-" + ordinal) == (hash(statefulSet), Decimal(ordinal))
  {
    var prefix := claim + "-" + statefulSet;
    OrdinalAtLastDash(prefix + "-" + ordinal, prefix, ordinal);
    LastDashOf(prefix, |claim|);
    assert prefix[|claim| + 1..] == statefulSet;
  }

  /** A name ends in a dash and a numeral that fits into 32 bits. */
  predicate HasOrdinal(name: string, prefix: string, ordinal: string) {
    name == prefix + "-" + ordinal && IsNumeral(ordinal) && Decimal(ordinal) < TWO_32
  }

  lemma OrdinalAtLastDash(name: string, prefix: string, ordinal: string)
    requires HasOrdinal(name, prefix, ordinal)
    ensures LastDash(name) == |prefix| && name[|prefix| + 1..] == ordinal && name[..|prefix|] == prefix
  {
    forall k | |prefix| < k < |name| ensures name[k] != '-' {
      assert name[k] == ordinal[k - |prefix| - 1] && ordinal[k - |prefix| - 1] in ordinal;
    }
    LastDashOf(name, |prefix|);
  }

  /** Without a second dash the name of the set is all that comes before the ordinal. */
  lemma PlainMembers(hash: string -> nat, statefulSet: string, ordinal: string)
    requires '-' !in statefulSet && IsNumeral(ordinal) && Decimal(ordinal) < TWO_32
    ensures HashAndIndex(hash, statefulSet + "-" + ordinal) == (hash(statefulSet), Decimal(ordinal))
  {
    OrdinalAtLastDash(statefulSet + "-" + ordinal, statefulSet, ordinal);
    assert forall k | 0 <= k < |statefulSet| :: statefulSet[k] in statefulSet;
  }

  /** A name without ordinal is hashed as a whole, with index 0. */
  lemma OtherNames(hash: string -> nat, name: string)
    requires !exists prefix, ordinal :: HasOrdinal(name, prefix, ordinal)
    ensures HashAndIndex(hash, name) == (hash(name), 0)
  {
    var dash := LastDash(name);
    if dash != -1 {
      assert name == name[..dash] + "-" + name[dash + 1..];
      assert !HasOrdinal(name, name[..dash], name[dash + 1..]);
    }
  }

  /** hash + index, with uint32 addition */
  function Sum32(hash: nat, index: nat): nat {
    (hash + index) % TWO_32
  }

  /** (hash + index) % uint32(len(terms)) */
  function Start(hash: nat, index: nat, n: nat): nat
    requires n > 0
  {
    Sum32(hash, index) % n
  }

  lemma Multiples(n: nat, d: int)
    requires n > 0
    ensures d >= 1 ==> n * d >= n
    ensures d <= 0 ==> n * d <= 0
    ensures d <= -1 ==> n * d + n <= 0
  {
    if d >= 1 {
      assert n * (d - 1) >= 0;
    } else {
      assert n * -d >= 0;
      if d <= -1 {
        assert n * (-d - 1) >= 0;
      }
    }
  }

  lemma Distribute(n: nat, p: int, q: int)
    ensures n * p - n * q == n * (p - q)
  {
  }

  lemma ModDiffers(x: nat, y: nat, n: nat)
    requires x < y < x + n
    ensures x % n != y % n
  {
    var p, q := x / n, y / n;
    assert x == n * p + x % n && y == n * q + y % n;
    Distribute(n, q, p);
    Multiples(n, q - p);
  }

  lemma ModShift(x: nat, m: nat, n: nat)
    requires n > 0 && m <= x && m % n == 0
    ensures (x - m) % n == x % n
  {
    var p, q := x / n, m / n;
    assert x == n * p + x % n && m == n * q;
    Distribute(n, p, q);
    ModUnique(x - m, p - q, x % n, n);
  }

  lemma ModUnique(x: nat, q: int, r: nat, n: nat)
    requires n > 0 && x == n * q + r && r < n
    ensures x % n == r
  {
    var q', r' := x / n, x % n;
    assert x == n * q' + r';
    Distribute(n, q, q');
    Multiples(n, q - q');
  }

  function StartAt(hash: nat, base: nat, k: nat, n: nat): nat
    requires n > 0
  {
    Start(hash, base + k, n)
  }

  /** All n ordinals from base on start at different terms. */
  predicate Spread(hash: nat, base: nat, n: nat)
    requires n > 0
  {
    forall j, k | 0 <= j < k < n :: StartAt(hash, base, j, n) != StartAt(hash, base, k, n)
  }

  /** The first sum, reduced; the others follow on it and wrap at 2^32. */
  lemma Sums(hash: nat, base: nat, k: nat)
    requires k < TWO_32
    ensures var a := (hash + base) % TWO_32;
            (hash + (base + k)) % TWO_32 == if a + k < TWO_32 then a + k else a + k - TWO_32
  {
    var s := hash + base;
    assert s == TWO_32 * (s / TWO_32) + s % TWO_32;
  }

  lemma SpreadSufficient(hash: nat, base: nat, n: nat)
    requires 0 < n <= TWO_32
    requires (hash + base) % TWO_32 + n <= TWO_32 || TWO_32 % n == 0
    ensures Spread(hash, base, n)
  {
    var a := (hash + base) % TWO_32;
    forall j, k | 0 <= j < k < n ensures StartAt(hash, base, j, n) != StartAt(hash, base, k, n) {
      Sums(hash, base, j);
      Sums(hash, base, k);
      ModDiffers(a + j, a + k, n);
      if a + n > TWO_32 {
        if a + j >= TWO_32 {
          ModShift(a + j, TWO_32, n);
        }
        if a + k >= TWO_32 {
          ModShift(a + k, TWO_32, n);
        }
      }
    }
  }

  /** Going back from w by m, which is less than its remainder or not. */
  lemma BeforeMultiple(w: nat, n: nat, m: nat)
    requires 0 < n && m <= w
    ensures var r := w % n; r <= w && (w - r) % n == 0 && (m <= r ==> (w - m) % n == r - m)
  {
    var r := w % n;
    assert w == n * (w / n) + r;
    Multiples(n, w / n);
    ModUnique(w - r, w / n, 0, n);
    if m <= r {
      ModUnique(w - m, w / n, r - m, n);
    }
  }

  lemma SpreadNecessary(hash: nat, base: nat, n: nat)
    requires 0 < n <= TWO_32
    requires (hash + base) % TWO_32 + n > TWO_32 && TWO_32 % n != 0
    ensures !Spread(hash, base, n)
  {
    var m := TWO_32 - (hash + base) % TWO_32;
    var r := TWO_32 % n;
    BeforeMultiple(TWO_32, n, m);
    var j, k := if m >= r then m - r else 0, if m >= r then m else r;
    Sums(hash, base, j);
    Sums(hash, base, k);
    SmallMod(k - m, n);
    assert StartAt(hash, base, j, n) == StartAt(hash, base, k, n);
  }

  lemma SmallMod(x: nat, n: nat)
    requires x < n
    ensures x % n == x
  {
  }

  /**
   n consecutive ordinals begin with n different terms exactly when the sums of hash and
   ordinal do not wrap at 2^32 in between, or n divides 2^32.
   */
  lemma SpreadExactly(hash: nat, base: nat, n: nat)
    requires 0 < n <= TWO_32
    ensures Spread(hash, base, n) <==> (hash + base) % TWO_32 + n <= TWO_32 || TWO_32 % n == 0
  {
    if (hash + base) % TWO_32 + n <= TWO_32 || TWO_32 % n == 0 {
      SpreadSufficient(hash, base, n);
    } else {
      SpreadNecessary(hash, base, n);
    }
  }

  // Names

  /** What GenerateAccessibilityRequirements takes modulo the number of terms. */
  function SpreadOf(hash: string -> nat, pvcName: string): nat {
    var (h, index) := HashAndIndex(hash, pvcName);
    Sum32(h, index)
  }

  function ClaimName(template: string, statefulSet: string, ordinal: string): string {
    template + "-" + statefulSet + "-" + ordinal
  }

  /** The spread that belongs to a claim of the member with that ordinal, for some claim template. */
  predicate MemberSpread(
    spread: nat, hash: string -> nat, template: string, statefulSet: string, ordinal: string, index: nat)
  {
    && '-' !in statefulSet && IsNumeral(ordinal) && Decimal(ordinal) == index < TWO_32
    && spread == SpreadOf(hash, ClaimName(template, statefulSet, ordinal))
  }

  lemma MemberSpreadIs(
    spread: nat, hash: string -> nat, template: string, statefulSet: string, ordinal: string, index: nat)
    requires MemberSpread(spread, hash, template, statefulSet, ordinal, index)
    ensures spread == Sum32(hash(statefulSet), index)
  {
    StatefulSetMembers(hash, template, statefulSet, ordinal);
  }

  /** The decimal numeral of an ordinal, as the StatefulSet controller writes it. */
  function Numeral(i: nat): string {
    if i < 10 then [Digit(i)] else Numeral(i / 10) + [Digit(i % 10)]
  }

  function Digit(i: nat): char
    requires i < 10
  {
    '0' + i as char
  }

  lemma {:induction false} NumeralIsDecimal(i: nat)
    ensures IsNumeral(Numeral(i)) && Decimal(Numeral(i)) == i
  {
    if i >= 10 {
      NumeralIsDecimal(i / 10);
      var s := Numeral(i);
      assert s[..|s| - 1] == Numeral(i / 10);
    } else {
      assert [Digit(i)][..0] == "";
    }
  }

  lemma NumeralSpread(hash: string -> nat, template: string, statefulSet: string, i: nat)
    requires '-' !in statefulSet && i < TWO_32
    ensures SpreadOf(hash, ClaimName(template, statefulSet, Numeral(i))) == Sum32(hash(statefulSet), i)
  {
    NumeralIsDecimal(i);
    var spread := SpreadOf(hash, ClaimName(template, statefulSet, Numeral(i)));
    MemberSpreadIs(spread, hash, template, statefulSet, Numeral(i), i);
  }
}
