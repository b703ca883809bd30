/**
 Handing out slugs: compose/mapping.go (uniqueSlug, dedupeSlugs, itoa) and
 coolify/mapping.go (UniqueSlug, AssignKusoSlugs).
 */
module SlugAlloc {
  import opened Lists
  import opened Slug

  // ----- itoa -----

  function Digit(d: nat): char
    requires d < 10
  {
    '0' + d as char
  }

  function Decimal(n: nat): (s: string)
    ensures s != ""
  {
    if n < 10 then [Digit(n)] else Decimal(n / 10) + [Digit(n % 10)]
  }

  lemma {:induction false} DecimalInjective(a: nat, b: nat)
    requires Decimal(a) == Decimal(b)
    ensures a == b
    decreases a
  {
    var s := Decimal(a);
    if a >= 10 {
      assert s[..|s| - 1] == Decimal(a / 10) && s[|s| - 1] == Digit(a % 10);
    }
    if b >= 10 {
      assert s[..|s| - 1] == Decimal(b / 10) && s[|s| - 1] == Digit(b % 10);
    }
    if a >= 10 && b >= 10 {
      DecimalInjective(a / 10, b / 10);
    } else {
      assert s[|s| - 1] == Digit(a % 10) == Digit(b % 10);
    }
  }

  /** A numeral read digit by digit, '0' having code 48. */
  function Number(s: string): int {
    if s == "" then 0 else 10 * Number(s[..|s| - 1]) + (s[|s| - 1] as int - 48)
  }

  /** The text is the number's decimal numeral: digits only, read back as the number, without a leading zero. */
  lemma {:induction false} DecimalRead(n: nat)
    ensures Number(Decimal(n)) == n
    ensures forall i | 0 <= i < |Decimal(n)| :: 48 <= Decimal(n)[i] as int <= 57
    ensures n > 0 ==> Decimal(n)[0] as int != 48
    decreases n
  {
    if n < 10 {
      assert Decimal(n)[..0] == "";
    } else {
      var s := Decimal(n);
      DecimalRead(n / 10);
      assert s[..|s| - 1] == Decimal(n / 10);
    }
  }

  function Pow10(k: nat): nat {
    if k == 0 then 1 else 10 * Pow10(k - 1)
  }

  lemma {:induction false} DecimalLength(n: nat, k: nat)
    requires n < Pow10(k) && k > 0
    ensures |Decimal(n)| <= k
  {
    if n >= 10 {
      DecimalLength(n / 10, k - 1);
    }
  }

  const MIN_INT: int := -0x8000_0000_0000_0000
  const MAX_INT: int := 0x7fff_ffff_ffff_ffff

  /** Go's unary minus on a 64-bit int. */
  function Negate(i: int): int
    requires MIN_INT <= i <= MAX_INT
  {
    if i == MIN_INT then MIN_INT else -i
  }

  /** The digits the loop writes for a number: none for zero. */
  function Digits(n: nat): string {
    if n == 0 then "" else Digits(n / 10) + [Digit(n % 10)]
  }

  lemma {:induction false} DigitsDecimal(n: nat)
    requires n > 0
    ensures Digits(n) == Decimal(n)
  {
    if n >= 10 {
      DigitsDecimal(n / 10);
    } else {
      assert Digits(n) == "" + [Digit(n)];
    }
  }

  lemma DigitsFit(n: nat)
    requires n <= -MIN_INT
    ensures |Digits(n)| <= 19
  {
    if n > 0 {
      DigitsDecimal(n);
    }
    assert Pow10(4) == 10_000 && Pow10(8) == 100_000_000 && Pow10(12) == 1_000_000_000_000;
    assert Pow10(16) == 10_000_000_000_000_000;
    assert Pow10(19) == 10_000_000_000_000_000_000;
    DecimalLength(n, 19);
  }

  lemma DigitStep(n: nat, tail: string)
    requires n > 0
    ensures Digits(n) != "" && Digits(n / 10) + ([Digit(n % 10)] + tail) == Digits(n) + tail
  {
    Regroup(Digits(n / 10), [Digit(n % 10)], tail);
  }

  /** The digit loop: the buffer fills from its end and never underflows. */
  method WriteDigits(n: nat, buf: array<char>) returns (pos: nat)
    requires buf.Length == 20 && |Digits(n)| <= 19
    modifies buf
    ensures 0 < pos <= 20 && buf[pos..] == Digits(n)
  {
    var rest := n;
    pos := 20;
    ghost var tail := "";
    while rest > 0
      invariant pos <= 20 && |tail| == 20 - pos && forall k | pos <= k < 20 :: buf[k] == tail[k - pos]
      invariant Digits(rest) + tail == Digits(n) && |Digits(rest)| + |tail| <= 19
    {
      DigitStep(rest, tail);
      pos := pos - 1;
      buf[pos] := Digit(rest % 10);
      tail := [Digit(rest % 10)] + tail;
      rest := rest / 10;
    }
    assert "" + tail == tail && buf[pos..] == tail;
  }

  /**
   The digits fit the 20-byte buffer for every int, sign included.  The text is the number's decimal
   form for every int but one: the least has no negation, so the digit loop never runs.
   */
  method Itoa(i: int) returns (s: string)
    requires MIN_INT <= i <= MAX_INT
    ensures i >= 0 ==> s == Decimal(i)
    ensures MIN_INT < i < 0 ==> s == "-" + Decimal(-i)
    ensures i == MIN_INT ==> s == "-"
  {
    if i == 0 {
      return "0";
    }
    var neg := i < 0;
    var n := if neg then Negate(i) else i;
    var buf := new char[20];
    DigitsFit(if n > 0 then n else 0);
    var pos := WriteDigits(if n > 0 then n else 0, buf);
    if n > 0 {
      DigitsDecimal(n);
    }
    if neg {
      ghost var digits := buf[pos..];
      pos := pos - 1;
      buf[pos] := '-';
      assert buf[pos..] == "-" + digits;
    }
    return buf[pos..];
  }

  // ----- uniqueSlug -----

  /** The k-th name tried for a base: base, base-2, base-3, ... */
  function Candidate(base: string, k: nat): string
    requires k > 0
  {
    if k == 1 then base else base + "-" + Decimal(k)
  }

  lemma CandidateInjective(base: string, j: nat, k: nat)
    requires 0 < j && 0 < k && Candidate(base, j) == Candidate(base, k)
    ensures j == k
  {
    var c := Candidate(base, j);
    if j > 1 && k > 1 {
      assert c[|base| + 1..] == Decimal(j) && c[|base| + 1..] == Decimal(k);
      DecimalInjective(j, k);
    }
    assert j > 1 ==> |Candidate(base, j)| > |base|;
    assert k > 1 ==> |Candidate(base, k)| > |base|;
  }

  /** The names tried after the base are the base, a dash and the numerals from 2 on. */
  lemma CandidateRead(base: string, k: nat)
    requires k > 0
    ensures k == 1 ==> Candidate(base, k) == base
    ensures k > 1 ==> base + "-" <= Candidate(base, k) && Number(Candidate(base, k)[|base| + 1..]) == k
    ensures Candidate(base, 2) == base + "-2"
  {
    DecimalRead(k);
    if k > 1 {
      assert Candidate(base, k)[|base| + 1..] == Decimal(k);
    }
    assert Decimal(2) == "2";
  }

  /** A free base is handed out as it is; a taken one with "-2" behind it, if that is free. */
  lemma FirstChoices(base: string, taken: set<string>)
    ensures base !in taken ==> FirstFree(base, taken) == base
    ensures base in taken && base + "-2" !in taken ==> FirstFree(base, taken) == base + "-2"
  {
    CandidateRead(base, 1);
    var r := FreeFrom(base, taken, 1);
    if base !in taken {
      FreeUnique(base, taken, 1);
    } else if base + "-2" !in taken {
      CandidateRead(base, 2);
      FreeUnique(base, taken, 2);
    }
  }

  /** Pigeonhole: that many distinct candidates cannot all be taken. */
  lemma {:induction false} TakenBound(base: string, taken: set<string>, k: nat)
    requires forall j | 0 < j < k :: Candidate(base, j) in taken
    ensures k <= |taken| + 1
    decreases k
  {
    if k > 1 {
      var last := Candidate(base, k - 1);
      forall j | 0 < j < k - 1 ensures Candidate(base, j) in taken - {last} {
        if Candidate(base, j) == last {
          CandidateInjective(base, j, k - 1);
        }
      }
      TakenBound(base, taken - {last}, k - 1);
    }
  }

  /** The number of the first candidate, from the k-th on, that is free. */
  function FreeFrom(base: string, taken: set<string>, k: nat): (r: nat)
    requires 0 < k && forall j | 0 < j < k :: Candidate(base, j) in taken
    ensures k <= r <= |taken| + 1 && Candidate(base, r) !in taken
    ensures forall j | 0 < j < r :: Candidate(base, j) in taken
    decreases |taken| + 2 - k
  {
    TakenBound(base, taken, k);
    if Candidate(base, k) in taken then FreeFrom(base, taken, k + 1) else k
  }

  /** slug is the k-th candidate, and the first of them that is free. */
  predicate IsFirstFree(base: string, taken: set<string>, slug: string, k: nat) {
    k > 0 && slug == Candidate(base, k) && slug !in taken && forall j | 0 < j < k :: Candidate(base, j) in taken
  }

  function FirstFree(base: string, taken: set<string>): (slug: string)
    ensures exists k: nat :: IsFirstFree(base, taken, slug, k) && k <= |taken| + 1
  {
    var k := FreeFrom(base, taken, 1);
    assert IsFirstFree(base, taken, Candidate(base, k), k);
    Candidate(base, k)
  }

  /** The names already handed out; both importers share one such set per project. */
  class Taken {
    var names: set<string>

    constructor ()
      ensures names == {}
    {
      names := {};
    }

    /** Tries at most one candidate more than there are names taken, and takes the first free one. */
    method UniqueSlug(base: string) returns (slug: string)
      modifies this
      ensures slug == FirstFree(base, old(names))
      ensures names == old(names) + {slug}
    {
      slug := base;
      var i := 2;
      while slug in names
        invariant names == old(names)
        invariant i >= 2 && slug == Candidate(base, i - 1)
        invariant forall j | 0 < j < i - 1 :: Candidate(base, j) in names
        decreases |names| + 2 - i
      {
        TakenBound(base, names, i);
        slug := base + "-" + Decimal(i);
        i := i + 1;
      }
      FreeUnique(base, names, i - 1);
      names := names + {slug};
    }
  }

  lemma FreeUnique(base: string, taken: set<string>, k: nat)
    requires 0 < k && Candidate(base, k) !in taken && forall j | 0 < j < k :: Candidate(base, j) in taken
    ensures FreeFrom(base, taken, 1) == k
  {
    var r := FreeFrom(base, taken, 1);
    assert Candidate(base, r) !in taken;
  }

  // ----- whole lists of names -----

  datatype Assigned<!K> = Assigned(slugs: map<K, string>, taken: set<string>)

  /** One slug per key, in order; a key seen before keeps the slug it has. */
  function Assign<K>(slugOf: K -> string, keys: seq<K>): Assigned<K> {
    if keys == [] then Assigned(map[], {})
    else
      var before, k := Assign(slugOf, keys[..|keys| - 1]), keys[|keys| - 1];
      if k in before.slugs then before
      else
        var slug := FirstFree(slugOf(k), before.taken);
        Assigned(before.slugs[k := slug], before.taken + {slug})
  }

  /** One slug per entry, in order; a key that comes twice ends up with its second slug. */
  function AssignEach<K>(slugOf: K -> string, keys: seq<K>): Assigned<K> {
    if keys == [] then Assigned(map[], {})
    else
      var before, k := AssignEach(slugOf, keys[..|keys| - 1]), keys[|keys| - 1];
      var slug := FirstFree(slugOf(k), before.taken);
      Assigned(before.slugs[k := slug], before.taken + {slug})
  }

  lemma {:induction false} AssignEachDistinct<K>(slugOf: K -> string, keys: seq<K>)
    requires forall i, j | 0 <= i < j < |keys| :: keys[i] != keys[j]
    ensures AssignEach(slugOf, keys) == Assign(slugOf, keys)
  {
    if keys != [] {
      var init := keys[..|keys| - 1];
      AssignEachDistinct(slugOf, init);
      AssignInjective(slugOf, init);
    }
  }

  method DedupeSlugs(names: seq<string>) returns (out: map<string, string>)
    ensures out == Assign(SlugOf, names).slugs
  {
    out := map[];
    var taken := new Taken();
    for i := 0 to |names|
      invariant fresh(taken)
      invariant Assign(SlugOf, names[..i]) == Assigned(out, taken.names)
    {
      assert names[..i + 1][..i] == names[..i];
      if names[i] !in out {
        var base := Slugify(names[i]);
        var slug := taken.UniqueSlug(base);
        out := out[names[i] := slug];
      }
    }
    assert names[..|names|] == names;
  }

  method AssignKusoSlugs(names: seq<string>) returns (out: map<string, string>)
    ensures out == Assign(SlugOfName, names).slugs
  {
    out := map[];
    var taken := new Taken();
    for i := 0 to |names|
      invariant fresh(taken)
      invariant Assign(SlugOfName, names[..i]) == Assigned(out, taken.names)
    {
      assert names[..i + 1][..i] == names[..i];
      if names[i] !in out {
        var base := SlugifyName(names[i]);
        var slug := taken.UniqueSlug(base);
        out := out[names[i] := slug];
      }
    }
    assert names[..|names|] == names;
  }

  /** The keys with a slug, whether each slug is marked taken, and whether no two keys share one. */
  ghost predicate Injective<K>(a: Assigned<K>) {
    && (forall k | k in a.slugs :: a.slugs[k] in a.taken)
    && (forall j, k | j in a.slugs && k in a.slugs && j != k :: a.slugs[j] != a.slugs[k])
  }

  lemma StaysInjective<K>(a: Assigned<K>, k: K, slug: string)
    requires Injective(a) && slug !in a.taken
    ensures Injective(Assigned(a.slugs[k := slug], a.taken + {slug}))
  {
  }

  /** Every key gets a slug, distinct keys get distinct ones, and each is marked taken. */
  lemma {:induction false} AssignInjective<K>(slugOf: K -> string, keys: seq<K>)
    ensures Injective(Assign(slugOf, keys))
    ensures forall k :: k in Assign(slugOf, keys).slugs <==> k in keys
    decreases |keys|
  {
    if keys != [] {
      var init, k := keys[..|keys| - 1], keys[|keys| - 1];
      AssignInjective(slugOf, init);
      LastMember(keys);
      var before := Assign(slugOf, init);
      if k !in before.slugs {
        StaysInjective(before, k, FirstFree(slugOf(k), before.taken));
      }
    }
  }

  /** So it is without the lookup: even a key that comes twice ends up with a slug of its own. */
  lemma {:induction false} AssignEachInjective<K>(slugOf: K -> string, keys: seq<K>)
    ensures Injective(AssignEach(slugOf, keys))
    ensures forall k :: k in AssignEach(slugOf, keys).slugs <==> k in keys
    decreases |keys|
  {
    if keys != [] {
      var init, k := keys[..|keys| - 1], keys[|keys| - 1];
      AssignEachInjective(slugOf, init);
      LastMember(keys);
      var before := AssignEach(slugOf, init);
      StaysInjective(before, k, FirstFree(slugOf(k), before.taken));
    }
  }

  /** Names added at the end leave every earlier assignment as it was. */
  lemma {:induction false} AssignStable<K>(slugOf: K -> string, keys: seq<K>, more: seq<K>)
    ensures var a, b := Assign(slugOf, keys), Assign(slugOf, keys + more);
            a.taken <= b.taken && forall k | k in a.slugs :: k in b.slugs && b.slugs[k] == a.slugs[k]
    decreases |more|
  {
    if more == [] {
      assert keys + more == keys;
    } else {
      var init := more[..|more| - 1];
      AssignStable(slugOf, keys, init);
      assert (keys + more)[..|keys + more| - 1] == keys + init;
    }
  }

  /** A key keeps its plain slug exactly when that slug was free when its turn came. */
  lemma {:induction false} AssignPlain<K>(slugOf: K -> string, keys: seq<K>, k: K)
    requires k !in keys
    ensures Assign(slugOf, keys + [k]).slugs[k] == slugOf(k) <==> slugOf(k) !in Assign(slugOf, keys).taken
  {
    AssignInjective(slugOf, keys);
    assert (keys + [k])[..|keys|] == keys;
    var taken := Assign(slugOf, keys).taken;
    var r := FreeFrom(slugOf(k), taken, 1);
    assert Assign(slugOf, keys + [k]).slugs[k] == Candidate(slugOf(k), r);
    if r != 1 {
      assert Candidate(slugOf(k), 1) in taken;
    }
  }

  /** The two importers hand out the same slugs. */
  lemma {:induction false} ImportersAgree(names: seq<string>)
    ensures Assign(SlugOf, names) == Assign(SlugOfName, names)
    decreases |names|
  {
    if names != [] {
      ImportersAgree(names[..|names| - 1]);
      SlugIsJoin(names[|names| - 1]);
    }
  }
}
