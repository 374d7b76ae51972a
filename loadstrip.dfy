/**
 * The resource list that the load-time clean-up of ModuleSimpleFuelSwitch
 * leaves behind, as values. The clean-up walks the part's resource list with
 * an index, removes an element whose name the active selection does not list,
 * and then advances the index anyway; the element that moved down into the
 * freed slot is therefore never examined. `Strip` is that walk; `Listed` is
 * the list the clean-up is meant to produce.
 */
module LoadStrip {
  import opened SwitchableResources

  /** A resource the selection does not list: the clean-up removes it when it examines it. */
  predicate Stray(selection: Selection, r: Resource)
  {
    !selection.Lists(r.resourceName)
  }

  /**
   * The resources left by the index walk, stated on the original list: an
   * examined stray is dropped and the element right after it is kept unread.
   */
  function Strip(rs: seq<Resource>, selection: Selection): (r: seq<Resource>)
    ensures |r| <= |rs|
  {
    if rs == [] then []
    else if !Stray(selection, rs[0]) then [rs[0]] + Strip(rs[1..], selection)
    else if |rs| == 1 then []
    else [rs[1]] + Strip(rs[2..], selection)
  }

  /** The resources of `rs` that the selection lists, in their order. */
  function Listed(rs: seq<Resource>, selection: Selection): (r: seq<Resource>)
    ensures |r| <= |rs|
    ensures forall k :: 0 <= k < |r| ==> selection.Lists(r[k].resourceName)
  {
    if rs == [] then []
    else if Stray(selection, rs[0]) then Listed(rs[1..], selection)
    else [rs[0]] + Listed(rs[1..], selection)
  }

  /** `ys` can be obtained from `xs` by deleting elements. */
  ghost predicate SubsequenceOf(ys: seq<Resource>, xs: seq<Resource>)
  {
    ys == [] || (xs != [] && ((ys[0] == xs[0] && SubsequenceOf(ys[1..], xs[1..])) || SubsequenceOf(ys, xs[1..])))
  }

  /** The clean-up only deletes: the survivors keep their relative order. */
  lemma {:induction false} StripIsSubsequence(rs: seq<Resource>, selection: Selection)
    ensures SubsequenceOf(Strip(rs, selection), rs)
  {
    if rs == [] {
    } else if !Stray(selection, rs[0]) {
      StripIsSubsequence(rs[1..], selection);
    } else if |rs| >= 2 {
      StripIsSubsequence(rs[2..], selection);
      assert rs[1..][1..] == rs[2..];
    }
  }

  /** No resource the selection lists is ever removed, and their order is kept. */
  lemma {:induction false} StripKeepsListed(rs: seq<Resource>, selection: Selection)
    ensures Listed(Strip(rs, selection), selection) == Listed(rs, selection)
  {
    if rs == [] {
    } else if !Stray(selection, rs[0]) {
      StripKeepsListed(rs[1..], selection);
      assert ([rs[0]] + Strip(rs[1..], selection))[1..] == Strip(rs[1..], selection);
    } else if |rs| >= 2 {
      StripKeepsListed(rs[2..], selection);
      assert ([rs[1]] + Strip(rs[2..], selection))[1..] == Strip(rs[2..], selection);
      assert rs[1..][1..] == rs[2..];
    }
  }

  /** Something is removed exactly when the list holds at least one stray. */
  lemma {:induction false} StripShrinksIffStray(rs: seq<Resource>, selection: Selection)
    ensures |Strip(rs, selection)| <= |rs|
    ensures |Strip(rs, selection)| < |rs| <==> exists k :: 0 <= k < |rs| && Stray(selection, rs[k])
  {
    if rs == [] {
    } else if !Stray(selection, rs[0]) {
      StripShrinksIffStray(rs[1..], selection);
      if exists k :: 0 <= k < |rs| && Stray(selection, rs[k]) {
        var k :| 0 <= k < |rs| && Stray(selection, rs[k]);
        assert rs[1..][k - 1] == rs[k];
      }
      forall k | 0 <= k < |rs| - 1 && Stray(selection, rs[1..][k])
        ensures Stray(selection, rs[k + 1])
      {
      }
    } else if |rs| >= 2 {
      StripShrinksIffStray(rs[2..], selection);
    }
  }

  /**
   * Where no two strays stand next to each other, the walk misses nothing:
   * it leaves exactly the listed resources.
   */
  lemma {:induction false} StripCompleteWithoutAdjacentStrays(rs: seq<Resource>, selection: Selection)
    requires forall k :: 0 <= k < |rs| - 1 ==> !(Stray(selection, rs[k]) && Stray(selection, rs[k + 1]))
    ensures Strip(rs, selection) == Listed(rs, selection)
  {
    if rs == [] {
    } else if !Stray(selection, rs[0]) {
      StripCompleteWithoutAdjacentStrays(rs[1..], selection);
    } else if |rs| >= 2 {
      assert !Stray(selection, rs[1]);
      StripCompleteWithoutAdjacentStrays(rs[2..], selection);
      assert rs[1..][1..] == rs[2..];
    }
  }

  /**
   * The converse: when the walk leaves exactly the listed resources, no two
   * strays stand next to each other. With the lemma above, the walk misses a
   * stray exactly when two strays are adjacent.
   */
  lemma {:induction false} StripCompleteOnlyWithoutAdjacentStrays(rs: seq<Resource>, selection: Selection)
    requires Strip(rs, selection) == Listed(rs, selection)
    ensures forall k :: 0 <= k < |rs| - 1 ==> !(Stray(selection, rs[k]) && Stray(selection, rs[k + 1]))
  {
    if rs == [] {
    } else if !Stray(selection, rs[0]) {
      assert ([rs[0]] + Strip(rs[1..], selection))[1..] == ([rs[0]] + Listed(rs[1..], selection))[1..];
      StripCompleteOnlyWithoutAdjacentStrays(rs[1..], selection);
      forall k | 1 <= k < |rs| - 1
        ensures !(Stray(selection, rs[k]) && Stray(selection, rs[k + 1]))
      {
        assert rs[1..][k - 1] == rs[k] && rs[1..][k] == rs[k + 1];
      }
    } else if |rs| >= 2 {
      assert rs[1..][1..] == rs[2..];
      if Stray(selection, rs[1]) {
        // Listed(rs) is then Listed(rs[2..]), which is too short to equal the walk's result.
        StripKeepsListed(rs[2..], selection);
        assert false;
      }
      assert ([rs[1]] + Strip(rs[2..], selection))[1..] == ([rs[1]] + Listed(rs[2..], selection))[1..];
      StripCompleteOnlyWithoutAdjacentStrays(rs[2..], selection);
      forall k | 2 <= k < |rs| - 1
        ensures !(Stray(selection, rs[k]) && Stray(selection, rs[k + 1]))
      {
        assert rs[2..][k - 2] == rs[k] && rs[2..][k - 1] == rs[k + 1];
      }
    }
  }

  /**
   * The missed case: when the first stray the walk meets is directly followed
   * by another stray, that second stray survives, at the position the first
   * one held, so the result is not the listed resources.
   */
  lemma {:induction false} StrayAfterRemovedStraySurvives(rs: seq<Resource>, selection: Selection, i: nat)
    requires i + 1 < |rs|
    requires forall k :: 0 <= k < i ==> !Stray(selection, rs[k])
    requires Stray(selection, rs[i]) && Stray(selection, rs[i + 1])
    ensures i < |Strip(rs, selection)| && Strip(rs, selection)[i] == rs[i + 1]
    ensures Strip(rs, selection) != Listed(rs, selection)
  {
    if i == 0 {
    } else {
      assert !Stray(selection, rs[0]);
      StrayAfterRemovedStraySurvives(rs[1..], selection, i - 1);
    }
  }

  /** The intended clean-up removes something exactly when the list holds a stray. */
  lemma {:induction false} ListedShrinksIffStray(rs: seq<Resource>, selection: Selection)
    ensures |Listed(rs, selection)| < |rs| <==> exists k :: 0 <= k < |rs| && Stray(selection, rs[k])
  {
    if rs != [] {
      ListedShrinksIffStray(rs[1..], selection);
      if exists k :: 0 <= k < |rs| && Stray(selection, rs[k]) {
        var k :| 0 <= k < |rs| && Stray(selection, rs[k]);
        if k > 0 {
          assert rs[1..][k - 1] == rs[k];
        }
      }
      forall k | 0 <= k < |rs| - 1 && Stray(selection, rs[1..][k])
        ensures Stray(selection, rs[k + 1])
      {
      }
    }
  }

  /**
   * One step of the index walk at index `i` of the current list `c`, stated
   * against the walk on the original list: the part already walked plus the
   * walk of the rest is the same before and after the step.
   */
  lemma StripStep(c: seq<Resource>, i: nat, selection: Selection)
    requires i < |c|
    ensures !Stray(selection, c[i]) ==>
      c[..i + 1] + Strip(c[i + 1..], selection) == c[..i] + Strip(c[i..], selection)
    ensures Stray(selection, c[i]) && i + 1 < |c| ==>
      var d := c[..i] + c[i + 1..];
      d[..i + 1] + Strip(d[i + 1..], selection) == c[..i] + Strip(c[i..], selection)
    ensures Stray(selection, c[i]) && i + 1 == |c| ==>
      c[..i] == c[..i] + Strip(c[i..], selection)
  {
    assert c[i..][1..] == c[i + 1..];
    if Stray(selection, c[i]) && i + 1 < |c| {
      var d := c[..i] + c[i + 1..];
      assert d[..i + 1] == c[..i] + [c[i + 1]];
      assert d[i + 1..] == c[i + 2..];
      assert c[i..][2..] == c[i + 2..];
    } else if !Stray(selection, c[i]) {
      assert c[..i + 1] == c[..i] + [c[i]];
    }
  }

  /** One step of the intended walk, which advances only past a resource that stays. */
  lemma ListedStep(c: seq<Resource>, i: nat, selection: Selection)
    requires i < |c|
    ensures !Stray(selection, c[i]) ==>
      c[..i + 1] + Listed(c[i + 1..], selection) == c[..i] + Listed(c[i..], selection)
    ensures Stray(selection, c[i]) ==>
      var d := c[..i] + c[i + 1..];
      d[..i] + Listed(d[i..], selection) == c[..i] + Listed(c[i..], selection)
  {
    assert c[i..][1..] == c[i + 1..];
    if Stray(selection, c[i]) {
      var d := c[..i] + c[i + 1..];
      assert d[..i] == c[..i];
      assert d[i..] == c[i + 1..];
    } else {
      assert c[..i + 1] == c[..i] + [c[i]];
    }
  }
}
