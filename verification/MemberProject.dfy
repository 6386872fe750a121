/**
 The declared references of a member collection (internal/memberobjects/objects.go):
 aliases of one digest count once, and every bound is checked before any descriptor is
 used.  Lengths are unsigned 64-bit; the running total never wraps.
 */
module MemberProject {
  import opened Bytes

  const NAME_LIMIT: nat := 128
  const OBJECT_LIMIT: nat := 4194304
  const TOTAL_LIMIT: nat := 16777216
  const UINT64: nat := 0x1_0000_0000_0000_0000

  datatype Error = DescriptorInvalid | InputMismatch | BoundsExceeded

  datatype Reference = Reference(name: string, length: nat, digest: string)

  type Lengths = map<string, nat>

  predicate AlphaNum(b: char) {
    'A' <= b <= 'Z' || 'a' <= b <= 'z' || '0' <= b <= '9'
  }

  predicate ValidName(s: string) {
    && 1 <= |s| <= 64
    && AlphaNum(s[0])
    && forall i :: 0 <= i < |s| ==> AlphaNum(s[i]) || s[i] == '.' || s[i] == '_' || s[i] == '-'
  }

  predicate ValidDigest(s: string) {
    |s| == 64 && forall i :: 0 <= i < |s| ==> '0' <= s[i] <= '9' || 'a' <= s[i] <= 'f'
  }

  /** One entry per digest, with the length it is first declared with. */
  function DigestLengths(refs: seq<Reference>): Lengths {
    if refs == [] then map[]
    else
      var before, last := DigestLengths(refs[..|refs| - 1]), refs[|refs| - 1];
      if last.digest in before then before else before[last.digest := last.length]
  }

  ghost function Sum(m: Lengths): nat
    decreases |m|
  {
    if m == map[] then 0
    else
      var d :| d in m;
      m[d] + Sum(m - {d})
  }

  /** The sum does not depend on the order the digests are taken in. */
  lemma {:induction false} SumTakes(m: Lengths, d: string)
    requires d in m
    ensures Sum(m) == m[d] + Sum(m - {d})
    decreases |m|
  {
    var e :| e in m && Sum(m) == m[e] + Sum(m - {e});
    if e != d {
      SumTakes(m - {e}, d);
      SumTakes(m - {d}, e);
      assert m - {e} - {d} == m - {d} - {e};
    }
  }

  lemma SumAdds(m: Lengths, d: string, n: nat)
    requires d !in m
    ensures Sum(m[d := n]) == Sum(m) + n
  {
    SumTakes(m[d := n], d);
    assert m[d := n] - {d} == m;
  }

  predicate ReferenceOk(r: Reference) {
    ValidName(r.name) && ValidDigest(r.digest) && r.length <= OBJECT_LIMIT
  }

  predicate DistinctNames(refs: seq<Reference>) {
    forall i, j :: 0 <= i < j < |refs| ==> refs[i].name != refs[j].name
  }

  predicate AliasesAgree(refs: seq<Reference>) {
    forall i, j :: 0 <= i < j < |refs| && refs[i].digest == refs[j].digest ==> refs[i].length == refs[j].length
  }

  /** Well-formed, distinctly named references whose aliases agree, within every bound. */
  ghost predicate Declarable(refs: seq<Reference>) {
    && |refs| <= NAME_LIMIT
    && (forall r :: r in refs ==> ReferenceOk(r))
    && DistinctNames(refs)
    && AliasesAgree(refs)
    && Sum(DigestLengths(refs)) <= TOTAL_LIMIT
  }

  lemma {:induction false} DeclaredFirst(refs: seq<Reference>, d: string)
    ensures d in DigestLengths(refs) <==> exists i :: 0 <= i < |refs| && refs[i].digest == d
    ensures d in DigestLengths(refs) ==> exists i :: 0 <= i < |refs| && refs[i].digest == d && refs[i].length == DigestLengths(refs)[d]
    decreases |refs|
  {
    if refs != [] {
      DeclaredFirst(refs[..|refs| - 1], d);
      assert refs[|refs| - 1].digest == d || forall i :: 0 <= i < |refs| && refs[i].digest == d ==> refs[..|refs| - 1][i] == refs[i];
    }
  }

  /** More references never sum to less. */
  lemma {:induction false} SumGrows(refs: seq<Reference>, i: nat)
    requires i <= |refs|
    ensures Sum(DigestLengths(refs[..i])) <= Sum(DigestLengths(refs))
    decreases |refs| - i
  {
    if i == |refs| {
      assert refs[..i] == refs;
    } else {
      assert refs[..i + 1][..i] == refs[..i];
      var m := DigestLengths(refs[..i]);
      if refs[i].digest !in m {
        SumAdds(m, refs[i].digest, refs[i].length);
      }
      SumGrows(refs, i + 1);
    }
  }

  lemma PrefixDeclarable(refs: seq<Reference>, i: nat)
    requires i <= |refs| && Declarable(refs)
    ensures Declarable(refs[..i])
  {
    SumGrows(refs, i);
    assert forall r :: r in refs[..i] ==> r in refs;
  }

  /** What is wrong with one more reference after acceptable ones, in the order the rules are looked at. */
  ghost function Fault(before: seq<Reference>, r: Reference): Option<Error> {
    var m := DigestLengths(before);
    if !ValidName(r.name) || !ValidDigest(r.digest) || (exists j :: 0 <= j < |before| && before[j].name == r.name)
      then Some(InputMismatch)
    else if r.length > OBJECT_LIMIT then Some(BoundsExceeded)
    else if r.digest in m then (if m[r.digest] == r.length then None else Some(InputMismatch))
    else if Sum(m) + r.length > TOTAL_LIMIT then Some(BoundsExceeded)
    else None
  }

  lemma NamesOne(before: seq<Reference>, r: Reference)
    requires DistinctNames(before)
    ensures DistinctNames(before + [r]) <==> forall j :: 0 <= j < |before| ==> before[j].name != r.name
  {
    var all := before + [r];
    if DistinctNames(all) {
      forall j | 0 <= j < |before|
        ensures before[j].name != r.name
      {
        assert all[j].name != all[|before|].name;
      }
    }
  }

  lemma AgreeOne(before: seq<Reference>, r: Reference)
    requires AliasesAgree(before)
    ensures AliasesAgree(before + [r]) <==> (r.digest in DigestLengths(before) ==> DigestLengths(before)[r.digest] == r.length)
  {
    var all, m := before + [r], DigestLengths(before);
    DeclaredFirst(before, r.digest);
    hide DigestLengths;
    if r.digest in m {
      var k :| 0 <= k < |before| && before[k].digest == r.digest && before[k].length == m[r.digest];
      assert all[k] == before[k] && all[|before|] == r;
      assert forall j :: 0 <= j < |before| && before[j].digest == r.digest ==> before[j].length == before[k].length;
    }
  }

  /** What one more reference must satisfy. */
  lemma DeclareOne(before: seq<Reference>, r: Reference)
    requires Declarable(before) && |before| < NAME_LIMIT
    ensures Declarable(before + [r]) <==> Fault(before, r).None?
  {
    var all, m := before + [r], DigestLengths(before);
    assert all[..|before|] == before;
    assert DigestLengths(all) == if r.digest in m then m else m[r.digest := r.length];
    if r.digest !in m {
      SumAdds(m, r.digest, r.length);
    }
    NamesOne(before, r);
    AgreeOne(before, r);
    hide ValidName, ValidDigest, Sum, DigestLengths, DistinctNames, AliasesAgree;
    assert forall x :: x in all <==> x in before || x == r;
    assert all[|before|] == r && r in all;
    assert (forall x :: x in all ==> ReferenceOk(x)) <==> ReferenceOk(r);
    assert DistinctNames(all) <==> !exists j :: 0 <= j < |before| && before[j].name == r.name;
  }

  /** Which refusal: a malformed or repeated name or digest is a mismatch before any length is looked at; then an object
      over its limit breaks the bounds; then an alias that disagrees is a mismatch; then the total breaks them. */
  lemma FaultExactly(before: seq<Reference>, r: Reference)
    requires Declarable(before)
    ensures var all := before + [r];
            var wellNamed := ValidName(r.name) && ValidDigest(r.digest) && DistinctNames(all);
            && (Fault(before, r) == Some(InputMismatch) <==> !wellNamed || (r.length <= OBJECT_LIMIT && !AliasesAgree(all)))
            && (Fault(before, r) == Some(BoundsExceeded) <==>
                  wellNamed && (r.length > OBJECT_LIMIT || (AliasesAgree(all) && Sum(DigestLengths(all)) > TOTAL_LIMIT)))
  {
    var all, m := before + [r], DigestLengths(before);
    assert all[..|before|] == before;
    assert DigestLengths(all) == if r.digest in m then m else m[r.digest := r.length];
    if r.digest !in m {
      SumAdds(m, r.digest, r.length);
    }
    NamesOne(before, r);
    AgreeOne(before, r);
    hide ValidName, ValidDigest, Sum, DigestLengths, DistinctNames, AliasesAgree;
  }

  /** Checks one reference and counts it, unless its digest is already counted. */
  method DeclareNext(ghost before: seq<Reference>, r: Reference, names: set<string>, lengths0: Lengths, total0: nat)
    returns (error: Option<Error>, lengths: Lengths, total: nat)
    requires names == set j | 0 <= j < |before| :: before[j].name
    requires lengths0 == DigestLengths(before) && total0 == Sum(lengths0) <= TOTAL_LIMIT < UINT64
    ensures error == Fault(before, r)
    ensures error.None? ==> lengths == DigestLengths(before + [r]) && total == Sum(lengths) <= TOTAL_LIMIT
  {
    lengths, total := lengths0, total0;
    assert (before + [r])[..|before|] == before;
    if !ValidName(r.name) || !ValidDigest(r.digest) || r.name in names {
      return Some(InputMismatch), lengths, total;
    }
    if r.length > OBJECT_LIMIT {
      return Some(BoundsExceeded), lengths, total;
    }
    if r.digest in lengths {
      if lengths[r.digest] != r.length {
        return Some(InputMismatch), lengths, total;
      }
      return None, lengths, total;
    }
    if r.length > TOTAL_LIMIT - total {
      return Some(BoundsExceeded), lengths, total;
    }
    SumAdds(lengths, r.digest, r.length);
    return None, lengths[r.digest := r.length], total + r.length;
  }

  /** The first reference that breaks a rule, and which. */
  ghost predicate BreaksFirst(refs: seq<Reference>, i: nat, error: Error) {
    i < |refs| && Declarable(refs[..i]) && Fault(refs[..i], refs[i]) == Some(error)
  }

  /** Accepts exactly the declarable lists, with one length per digest; refuses at the first reference that breaks a rule. */
  method Project(refs: seq<Reference>) returns (lengths: Lengths, error: Option<Error>)
    ensures error.None? <==> Declarable(refs)
    ensures error.None? ==> lengths == DigestLengths(refs)
    ensures |refs| > NAME_LIMIT ==> error == Some(BoundsExceeded)
    ensures error.Some? && |refs| <= NAME_LIMIT ==> exists i :: BreaksFirst(refs, i, error.value)
  {
    lengths := map[];
    if |refs| > NAME_LIMIT {
      return lengths, Some(BoundsExceeded);
    }
    var names: set<string> := {};
    var total := 0;
    for i := 0 to |refs|
      invariant Declarable(refs[..i])
      invariant names == set j | 0 <= j < i :: refs[..i][j].name
      invariant lengths == DigestLengths(refs[..i]) && total == Sum(lengths) <= TOTAL_LIMIT
    {
      assert refs[..i + 1] == refs[..i] + [refs[i]];
      DeclareOne(refs[..i], refs[i]);
      hide Declarable, DigestLengths, Sum, Fault;
      error, lengths, total := DeclareNext(refs[..i], refs[i], names, lengths, total);
      if error.Some? {
        assert BreaksFirst(refs, i, error.value);
        if Declarable(refs) {
          PrefixDeclarable(refs, i + 1);
        }
        return;
      }
      names := names + {refs[i].name};
    }
    assert refs[..|refs|] == refs;
    return lengths, None;
  }
}
