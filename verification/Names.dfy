/**
 Repair of duplicate names (authentik/lib/migrations.py): later duplicates get the first free
 numbered suffix.
 */
module Names {
  import opened Common

  // ---------------------------------------------------------------------------
  // Suffixed names
  // ---------------------------------------------------------------------------

  function Digit(d: nat): (c: char)
    requires d < 10
    ensures '0' <= c <= '9' && (c as int) - ('0' as int) == d
  {
    '0' + d as char
  }

  function Decimal(n: nat): (s: string)
    ensures s != ""
  {
    if n < 10 then [Digit(n)] else Decimal(n / 10) + [Digit(n % 10)]
  }

  /** The number a string of digits stands for. */
  ghost function Number(s: string): int
  {
    if s == "" then 0 else 10 * Number(s[..|s| - 1]) + (s[|s| - 1] as int - '0' as int)
  }

  /** A number is written in digits and reads back. */
  lemma {:induction false} DecimalReads(n: nat)
    ensures Number(Decimal(n)) == n && forall c :: c in Decimal(n) ==> '0' <= c <= '9'
  {
    if n < 10 {
      assert [Digit(n)][..0] == "";
    } else {
      DecimalReads(n / 10);
      assert (Decimal(n / 10) + [Digit(n % 10)])[..|Decimal(n / 10)|] == Decimal(n / 10);
    }
  }

  lemma {:induction false} DecimalInjective(m: nat, n: nat)
    requires Decimal(m) == Decimal(n)
    ensures m == n
  {
    var s := Decimal(m);
    if m < 10 && n < 10 {
      assert Digit(m) == s[0] == Digit(n);
    } else {
      DecimalLength(m);
      DecimalLength(n);
      assert s[|s| - 1] == Digit(m % 10) == Digit(n % 10);
      assert s[..|s| - 1] == Decimal(m / 10) == Decimal(n / 10);
      DecimalInjective(m / 10, n / 10);
    }
  }

  lemma DecimalLength(n: nat)
    ensures |Decimal(n)| == 1 <==> n < 10
  {
  }

  function Suffixed(name: string, k: nat): string { name + "_" + Decimal(k) }

  lemma SuffixedInjective(name: string, j: nat, k: nat)
    requires Suffixed(name, j) == Suffixed(name, k)
    ensures j == k
  {
    assert Suffixed(name, j)[|name| + 1..] == Decimal(j);
    assert Suffixed(name, k)[|name| + 1..] == Decimal(k);
    DecimalInjective(j, k);
  }

  lemma SuffixedDiffers(name: string, k: nat)
    ensures Suffixed(name, k) != name
  {
    assert |Suffixed(name, k)| > |name|;
  }

  // ---------------------------------------------------------------------------
  // The search for a free suffix
  // ---------------------------------------------------------------------------

  ghost function SetOf(names: seq<string>): set<string> { set x | x in names }

  ghost predicate Taken(names: seq<string>, name: string, k: nat)
  {
    forall j: nat :: 2 <= j < k ==> Suffixed(name, j) in names
  }

  /** The suffixes 2 to `k - 1` are different names, all taken. */
  lemma {:induction false} TakenNames(names: seq<string>, name: string, k: nat) returns (taken: set<string>)
    requires k >= 2 && Taken(names, name, k)
    ensures |taken| == k - 2 && taken <= SetOf(names) - {name}
    ensures forall x :: x in taken ==> exists j: nat :: 2 <= j < k && x == Suffixed(name, j)
  {
    if k == 2 {
      taken := {};
    } else {
      taken := TakenNames(names, name, k - 1);
      var x := Suffixed(name, k - 1);
      if x in taken {
        var j: nat :| 2 <= j < k - 1 && x == Suffixed(name, j);
        SuffixedInjective(name, j, k - 1);
        assert false;
      }
      SuffixedDiffers(name, k - 1);
      taken := taken + {x};
    }
  }

  lemma {:induction false} SetOfSize(names: seq<string>)
    ensures |SetOf(names)| <= |names|
  {
    if names == [] {
      assert SetOf(names) == {};
    } else {
      SetOfSize(names[1..]);
      assert SetOf(names) == SetOf(names[1..]) + {names[0]};
    }
  }

  /** A table with a duplicate has fewer different names than rows. */
  lemma DuplicateShrinks(names: seq<string>, i: nat, j: nat)
    requires i < j < |names| && names[i] == names[j]
    ensures |SetOf(names)| < |names|
  {
    var rest := names[..j] + names[j + 1..];
    assert SetOf(names) == SetOf(rest) by {
      forall x | x in names ensures x in rest {
        var k :| 0 <= k < |names| && names[k] == x;
        assert x == if k < j then rest[k] else if k == j then rest[i] else rest[k - 1];
      }
    }
    SetOfSize(rest);
  }

  /** By pigeonhole, the search stops at a suffix no larger than the number of rows. */
  lemma SearchIsBounded(names: seq<string>, i: nat, j: nat, k: nat)
    requires i < j < |names| && names[i] == names[j] && k >= 2 && Taken(names, names[j], k)
    ensures k <= |names|
  {
    var taken := TakenNames(names, names[j], k);
    SubsetSize(taken, SetOf(names) - {names[j]});
    assert names[j] in SetOf(names);
    DuplicateShrinks(names, i, j);
  }

  /** The inner loop: the least suffix from 2 on that no row uses. */
  method FreeSuffix(names: seq<string>, ghost i: nat, j: nat) returns (k: nat)
    requires i < j < |names| && names[i] == names[j]
    ensures 2 <= k <= |names| && Suffixed(names[j], k) !in names && Taken(names, names[j], k)
  {
    k := 2;
    while Suffixed(names[j], k) in names
      invariant 2 <= k && Taken(names, names[j], k)
      decreases |names| + 1 - k
    {
      SearchIsBounded(names, i, j, k);
      k := k + 1;
      SearchIsBounded(names, i, j, k);
    }
    SearchIsBounded(names, i, j, k);
  }

  // ---------------------------------------------------------------------------
  // The migration
  // ---------------------------------------------------------------------------

  ghost predicate Distinct(names: seq<string>)
  {
    forall i, j :: 0 <= i < j < |names| ==> names[i] != names[j]
  }

  ghost predicate First(names: seq<string>, i: nat)
    requires i < |names|
  {
    forall j :: 0 <= j < i ==> names[j] != names[i]
  }

  /** A first occurrence keeps its name; a later one is its name with a suffix from 2 up to the row count. */
  ghost predicate Repaired(before: seq<string>, i: nat, name: string)
    requires i < |before|
  {
    if First(before, i) then name == before[i]
    else exists k: nat :: 2 <= k <= |before| && name == before[i] + "_" + Decimal(k)
  }

  /** `fallback_names`: afterwards all names differ. */
  method Migrate(rows: array<string>)
    modifies rows
    ensures Distinct(rows[..])
    ensures forall i :: 0 <= i < rows.Length ==> Repaired(old(rows[..]), i, rows[i])
  {
    ghost var before := rows[..];
    var seen: seq<string> := [];
    var i := 0;
    while i < rows.Length
      invariant 0 <= i <= rows.Length
      invariant forall j :: i <= j < rows.Length ==> rows[j] == before[j]
      invariant forall j :: 0 <= j < i ==> Repaired(before, j, rows[j])
      invariant forall x :: x in seen <==> x in before[..i]
      invariant Distinct(rows[..i])
      invariant forall j, l :: 0 <= j < i <= l < rows.Length && !First(before, j) ==> rows[j] != before[l]
    {
      var value := rows[i];
      if value !in seen {
        NewName(before, i, rows[..]);
        seen := seen + [value];
      } else {
        ghost var f := FirstOf(before, i);
        assert rows[f] == before[f] == value;
        var k := FreeSuffix(rows[..], f, i);
        assert !First(before, i);
        ghost var was := rows[..];
        rows[i] := Suffixed(value, k);
        assert rows[i] == value + "_" + Decimal(k);
        RenamedRow(was, i, rows[..]);
      }
      assert before[..i + 1] == before[..i] + [before[i]];
      i := i + 1;
    }
    assert rows[..i] == rows[..];
  }

  /** The first row with the name of row `i`. */
  ghost function FirstOf(names: seq<string>, i: nat): (f: nat)
    requires i < |names|
    ensures f <= i && names[f] == names[i] && First(names, f)
  {
    if First(names, i) then i else var j :| 0 <= j < i && names[j] == names[i]; FirstOf(names, j)
  }

  lemma NewName(before: seq<string>, i: nat, rows: seq<string>)
    requires i < |rows| == |before| && rows[i] == before[i] && Distinct(rows[..i])
    requires before[i] !in before[..i]
    requires forall j :: 0 <= j < i ==> Repaired(before, j, rows[j])
    requires forall j, l :: 0 <= j < i <= l < |rows| && !First(before, j) ==> rows[j] != before[l]
    ensures First(before, i) && Repaired(before, i, rows[i]) && Distinct(rows[..i + 1])
  {
    forall j | 0 <= j < i ensures before[j] != before[i] { assert before[..i][j] == before[j]; }
    forall j | 0 <= j < i ensures rows[j] != rows[i] {
      if First(before, j) { assert Repaired(before, j, rows[j]); }
    }
    forall j, l | 0 <= j < l < i + 1 ensures rows[j] != rows[l] {
      if l < i { assert rows[..i][j] != rows[..i][l]; }
    }
  }

  lemma RenamedRow(was: seq<string>, i: nat, rows: seq<string>)
    requires i < |rows| == |was| && rows == was[i := rows[i]] && rows[i] !in was && Distinct(was[..i])
    ensures Distinct(rows[..i + 1]) && forall l :: 0 <= l < |was| ==> rows[i] != was[l]
  {
    forall j, l | 0 <= j < l < i + 1 ensures rows[j] != rows[l] {
      if l < i { assert was[..i][j] != was[..i][l]; }
    }
  }
}
