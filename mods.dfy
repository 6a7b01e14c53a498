/**
 * mods_int_from_list: the sum of the MODS_DICT values of a score's mod acronyms.
 * An acronym missing from MODS_DICT raises KeyError, modelled as Failure carrying it.
 */
module Mods {
  import opened Wrappers
  import Config

  /** The lookup table the sum reads; MODS_DICT in the source. */
  type Table = string -> Option<int>

  predicate AllKnown(table: Table, mods: seq<string>) {
    forall i :: 0 <= i < |mods| ==> table(mods[i]).Some?
  }

  /** The accumulated sum over the list, or the first acronym the table does not know. */
  function SumOver(table: Table, mods: seq<string>): Result<int, string>
  {
    if mods == [] then Success(0)
    else match SumOver(table, mods[..|mods| - 1])
      case Failure(unknown) => Failure(unknown)
      case Success(total) =>
        match table(mods[|mods| - 1])
        case None => Failure(mods[|mods| - 1])
        case Some(v) => Success(total + v)
  }

  /** The sum that mods_int_from_list computes over MODS_DICT. */
  function ModsSum(mods: seq<string>): Result<int, string> {
    SumOver(Config.ModValue, mods)
  }

  method ModsIntFromList(mods: seq<string>) returns (r: Result<int, string>)
    ensures r == ModsSum(mods)
  {
    var modint := 0;
    for i := 0 to |mods|
      invariant SumOver(Config.ModValue, mods[..i]) == Success(modint)
    {
      assert mods[..i + 1][..i] == mods[..i];
      var v := Config.ModValue(mods[i]);
      if v.None? {
        assert SumOver(Config.ModValue, mods[..i + 1]) == Failure(mods[i]);
        FailureSticks(Config.ModValue, mods, i + 1);
        return Failure(mods[i]);
      }
      modint := modint + v.value;
    }
    assert mods[..|mods|] == mods;
    r := Success(modint);
  }

  /** Once a prefix fails, the whole list fails with the same acronym. */
  lemma {:induction false} FailureSticks(table: Table, mods: seq<string>, k: nat)
    requires k <= |mods|
    requires SumOver(table, mods[..k]).Failure?
    ensures SumOver(table, mods) == SumOver(table, mods[..k])
    decreases |mods| - k
  {
    if k < |mods| {
      assert mods[..k + 1][..k] == mods[..k];
      FailureSticks(table, mods, k + 1);
    } else {
      assert mods[..k] == mods;
    }
  }

  /** The sum fails exactly when some acronym is unknown, and then names the first unknown one. */
  lemma {:induction false} ModsSumFailsOnUnknown(table: Table, mods: seq<string>)
    ensures SumOver(table, mods).Success? <==> AllKnown(table, mods)
    ensures SumOver(table, mods).Failure? ==>
      exists i :: 0 <= i < |mods| && mods[i] == SumOver(table, mods).error
        && table(mods[i]).None? && AllKnown(table, mods[..i])
  {
    if mods != [] {
      var init := mods[..|mods| - 1];
      ModsSumFailsOnUnknown(table, init);
      assert forall i :: 0 <= i < |init| ==> init[i] == mods[i];
      if SumOver(table, init).Failure? {
        var i :| 0 <= i < |init| && init[i] == SumOver(table, init).error
          && table(init[i]).None? && AllKnown(table, init[..i]);
        assert init[..i] == mods[..i];
      } else if table(mods[|mods| - 1]).None? {
        assert mods[..|mods| - 1] == init;
      }
    }
  }

  /** Concatenating two known lists adds their sums. */
  lemma {:induction false} ModsSumAppend(table: Table, a: seq<string>, b: seq<string>)
    requires AllKnown(table, a) && AllKnown(table, b)
    ensures SumOver(table, a + b).Success? && SumOver(table, a).Success? && SumOver(table, b).Success?
    ensures SumOver(table, a + b).value == SumOver(table, a).value + SumOver(table, b).value
    decreases |b|
  {
    ModsSumFailsOnUnknown(table, a);
    ModsSumFailsOnUnknown(table, b);
    ModsSumFailsOnUnknown(table, a + b);
    if b != [] {
      var b' := b[..|b| - 1];
      assert (a + b)[..|a + b| - 1] == a + b';
      ModsSumAppend(table, a, b');
    } else {
      assert a + b == a;
    }
  }

  /** Removing one acronym from a known list takes exactly its value off the sum. */
  lemma {:induction false} ModsSumRemove(table: Table, mods: seq<string>, j: nat)
    requires AllKnown(table, mods) && j < |mods|
    ensures SumOver(table, mods).Success? && SumOver(table, mods[..j] + mods[j + 1..]).Success?
    ensures SumOver(table, mods).value ==
      table(mods[j]).value + SumOver(table, mods[..j] + mods[j + 1..]).value
  {
    var left, mid, right := mods[..j], [mods[j]], mods[j + 1..];
    assert mods == left + (mid + right);
    assert AllKnown(table, left) && AllKnown(table, mid) && AllKnown(table, right);
    assert AllKnown(table, mid + right);
    ModsSumAppend(table, left, mid + right);
    ModsSumAppend(table, mid, right);
    ModsSumAppend(table, left, right);
    assert SumOver(table, mid) == Success(table(mods[j]).value) by {
      assert mid[..0] == [];
    }
  }

  /** Whether every acronym is known depends only on the multiset of acronyms. */
  lemma KnownUnderPermutation(table: Table, a: seq<string>, b: seq<string>)
    requires multiset(a) == multiset(b)
    requires AllKnown(table, a)
    ensures AllKnown(table, b)
  {
    forall i | 0 <= i < |b| ensures table(b[i]).Some? {
      assert b[i] in multiset(a) by { assert b[i] in multiset(b); }
      var k :| 0 <= k < |a| && a[k] == b[i];
    }
  }

  /** Taking the same element out of two permutations of each other leaves permutations. */
  lemma PermutationWithout(a: seq<string>, b: seq<string>, j: nat)
    requires multiset(a) == multiset(b) && a != [] && j < |b| && b[j] == a[|a| - 1]
    ensures multiset(a[..|a| - 1]) == multiset(b[..j] + b[j + 1..])
  {
    var x := b[j];
    assert a == a[..|a| - 1] + [x];
    assert b == b[..j] + [x] + b[j + 1..];
    assert multiset(a[..|a| - 1]) == multiset(a) - multiset{x};
    assert multiset(b[..j] + b[j + 1..]) == multiset(b) - multiset{x};
  }

  /** The sum does not depend on the order of the list; duplicates count every time. */
  lemma {:induction false} ModsSumOrderIndependent(table: Table, a: seq<string>, b: seq<string>)
    requires multiset(a) == multiset(b)
    ensures SumOver(table, a).Success? <==> SumOver(table, b).Success?
    ensures SumOver(table, a).Success? ==> SumOver(table, a).value == SumOver(table, b).value
    decreases |a|
  {
    ModsSumFailsOnUnknown(table, a);
    ModsSumFailsOnUnknown(table, b);
    if AllKnown(table, a) {
      KnownUnderPermutation(table, a, b);
    }
    if AllKnown(table, b) {
      KnownUnderPermutation(table, b, a);
    }
    if a != [] && AllKnown(table, a) {
      var n := |a| - 1;
      assert a[n] in multiset(b) by { assert a[n] in multiset(a); }
      var j :| 0 <= j < |b| && b[j] == a[n];
      PermutationWithout(a, b, j);
      ModsSumOrderIndependent(table, a[..n], b[..j] + b[j + 1..]);
      ModsSumRemove(table, a, n);
      ModsSumRemove(table, b, j);
      assert a[..n] + a[n + 1..] == a[..n];
    }
  }

  /** mods_int_from_list ignores the order of the acronyms and counts a repeated one every time. */
  lemma ModsOrderIndependent(a: seq<string>, b: seq<string>)
    requires multiset(a) == multiset(b)
    ensures ModsSum(a).Success? <==> ModsSum(b).Success?
    ensures ModsSum(a).Success? ==> ModsSum(a).value == ModsSum(b).value
  {
    ModsSumOrderIndependent(Config.ModValue, a, b);
  }

  /** mods_int_from_list fails exactly on an acronym missing from MODS_DICT, the first one in the list. */
  lemma ModsUnknownRaises(mods: seq<string>)
    ensures ModsSum(mods).Success? <==> forall i :: 0 <= i < |mods| ==> mods[i] in Config.ModAcronyms
    ensures ModsSum(mods).Failure? ==> ModsSum(mods).error !in Config.ModAcronyms
  {
    ModsSumFailsOnUnknown(Config.ModValue, mods);
    forall x: string ensures Config.ModValue(x).Some? <==> x in Config.ModAcronyms {
      Config.ModValueDomain(x);
    }
  }

  /** Nightcore alone already carries DoubleTime's bit; an empty list sums to 0. */
  lemma NightcoreIncludesDoubleTime()
    ensures ModsSum(["NC"]) == Success(576)
    ensures (576 / 64) % 2 == 1
    ensures ModsSum(["DT", "HD"]) == ModsSum(["HD", "DT"]) == Success(72)
    ensures ModsSum(["HD", "HD"]) == Success(16)
    ensures ModsSum([]) == Success(0)
    ensures ModsSum(["HD", "XX"]) == Failure("XX")
  {
    assert ["NC"][..0] == [];
    assert ["DT", "HD"][..1] == ["DT"] && ["DT"][..0] == [];
    assert ["HD", "DT"][..1] == ["HD"] && ["HD"][..0] == [];
    assert ["HD", "HD"][..1] == ["HD"];
    assert ["HD", "XX"][..1] == ["HD"];
  }
}
