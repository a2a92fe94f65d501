/** The search for a name nobody uses: unusedKeyName of pkg/unpackerr/apikeys.go and
    uniqueSlug of frontend/src/lib/slug.ts. Neither loop has a bound of its own. */
module FreshName {

  const FALLBACK_ADMIN_KEY := "ui"
  const SEQUENCE_START: nat := 2

  function Digit(d: nat): char
    requires d < 10
  {
    ('0' as int + d) as char
  }

  function Decimal(n: nat): string {
    if n < 10 then [Digit(n)] else Decimal(n / 10) + [Digit(n % 10)]
  }

  /** The number that a decimal text stands for. */
  function Value(s: string): int {
    if s == "" then 0 else 10 * Value(s[..|s| - 1]) + (s[|s| - 1] as int - '0' as int)
  }

  function Numbered(base: string, n: nat): string {
    base + "-" + Decimal(n)
  }

  lemma {:induction false} DecimalValue(n: nat)
    ensures Value(Decimal(n)) == n
  {
    if n >= 10 {
      DecimalValue(n / 10);
      assert (Decimal(n / 10) + [Digit(n % 10)])[..|Decimal(n / 10)|] == Decimal(n / 10);
    }
  }

  lemma NumberedDistinct(base: string, m: nat, n: nat)
    requires Numbered(base, m) == Numbered(base, n)
    ensures m == n
  {
    assert Numbered(base, m)[|base| + 1..] == Decimal(m);
    assert Numbered(base, n)[|base| + 1..] == Decimal(n);
    DecimalValue(m);
    DecimalValue(n);
  }

  /** The numbered names from the first number up to, not including, n. */
  function Tried(base: string, n: nat): set<string>
    requires n >= SEQUENCE_START
  {
    set k | SEQUENCE_START <= k < n :: Numbered(base, k)
  }

  lemma {:induction false} TriedSize(base: string, n: nat)
    requires n >= SEQUENCE_START
    ensures |Tried(base, n)| == n - SEQUENCE_START
  {
    if n > SEQUENCE_START {
      TriedSize(base, n - 1);
      assert Tried(base, n) == Tried(base, n - 1) + {Numbered(base, n - 1)};
      if Numbered(base, n - 1) in Tried(base, n - 1) {
        var k :| SEQUENCE_START <= k < n - 1 && Numbered(base, k) == Numbered(base, n - 1);
        NumberedDistinct(base, k, n - 1);
      }
    }
  }

  lemma {:induction false} SubsetSize<T>(a: set<T>, b: set<T>)
    requires a <= b
    ensures |a| <= |b|
  {
    if a != {} {
      var x :| x in a;
      SubsetSize(a - {x}, b - {x});
    }
  }

  /** Pigeonhole: if every number below n gave a used name, and base itself is used, then
      fewer numbers were tried than names are used. */
  lemma Pigeonhole(base: string, used: set<string>, n: nat)
    requires n >= SEQUENCE_START && base in used
    requires forall k :: SEQUENCE_START <= k < n ==> Numbered(base, k) in used
    ensures n - SEQUENCE_START < |used|
  {
    TriedSize(base, n);
    forall k | SEQUENCE_START <= k < n ensures Numbered(base, k) != base {
      assert |Numbered(base, k)| > |base|;
    }
    SubsetSize(Tried(base, n), used - {base});
  }

  /** name is base with the smallest number that makes it free. */
  predicate FirstFree(base: string, used: set<string>, name: string) {
    && name !in used
    && exists n: nat ::
         && SEQUENCE_START <= n < SEQUENCE_START + |used|
         && name == Numbered(base, n)
         && forall k :: SEQUENCE_START <= k < n ==> Numbered(base, k) in used
  }

  /** Tries numbers without a bound; `used` already holds base. It ends within as many
      tries as there are used names. */
  method NumberUp(base: string, used: set<string>) returns (name: string, tries: nat)
    requires base in used
    ensures FirstFree(base, used, name)
    ensures 0 < tries <= |used| && name == Numbered(base, SEQUENCE_START + tries - 1)
  {
    var idx := SEQUENCE_START;
    name := Numbered(base, idx);
    Pigeonhole(base, used, idx);
    while name in used
      invariant idx >= SEQUENCE_START && name == Numbered(base, idx)
      invariant forall k :: SEQUENCE_START <= k < idx ==> Numbered(base, k) in used
      invariant idx - SEQUENCE_START < |used|
      decreases |used| - (idx - SEQUENCE_START)
    {
      idx := idx + 1;
      Pigeonhole(base, used, idx);
      name := Numbered(base, idx);
    }
    tries := idx - SEQUENCE_START + 1;
  }

  function Names(list: seq<string>): set<string> {
    set name | name in list
  }

  method UnusedKeyName(keys: seq<string>, want: string, extra: seq<string>) returns (name: string)
    ensures name !in keys && name !in extra
    ensures var used := Names(keys) + Names(extra);
            if want !in used then name == want
            else if FALLBACK_ADMIN_KEY !in used then name == FALLBACK_ADMIN_KEY
            else FirstFree(FALLBACK_ADMIN_KEY, used, name)
  {
    var used: set<string> := {};
    for i := 0 to |keys|
      invariant used == Names(keys[..i])
    {
      used := used + {keys[i]};
    }
    assert keys[..|keys|] == keys;
    for i := 0 to |extra|
      invariant used == Names(keys) + Names(extra[..i])
    {
      used := used + {extra[i]};
    }
    assert extra[..|extra|] == extra;
    if want !in used {
      return want;
    }
    if FALLBACK_ADMIN_KEY !in used {
      return FALLBACK_ADMIN_KEY;
    }
    var tries;
    name, tries := NumberUp(FALLBACK_ADMIN_KEY, used);
  }

  /** `valid` says whether base is a legal slug. */
  method UniqueSlug(base: string, valid: bool, taken: seq<string>, fallback: string) returns (slug: string)
    ensures slug !in taken
    ensures var wanted := if valid then base else fallback;
            if wanted !in taken then slug == wanted else FirstFree(wanted, Names(taken), slug)
  {
    slug := if valid then base else fallback;
    if slug in taken {
      var tries;
      slug, tries := NumberUp(slug, Names(taken));
    }
  }
}
