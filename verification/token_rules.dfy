/**
  The IAM join-token helpers of the web UI: `sortRules`, `isSameRuleSet` and
  `generateIAMTokenName`.

  A rule keeps only its AWS account and AWS ARN, the two fields the web UI's
  IAM rules set and the sort orders by. Rules are values here, so `sortRules`'s in-place reordering of the
  caller's slice becomes a function returning the reordered sequence.
 */
module TokenRules {
  import Strings

  /** `types.TokenRule` as seen by the helpers. */
  datatype TokenRule = TokenRule(awsAccount: string, awsArn: string)

  /** The comparator `sortRules` passes to `sort.Slice`: by account, then by ARN. */
  predicate RuleLess(a: TokenRule, b: TokenRule)
  {
    if a.awsAccount != b.awsAccount then Strings.Less(a.awsAccount, b.awsAccount)
    else Strings.Less(a.awsArn, b.awsArn)
  }

  predicate RuleLe(a: TokenRule, b: TokenRule)
  {
    a == b || RuleLess(a, b)
  }

  /** Ascending by account, ties broken by ARN. */
  predicate Sorted(rs: seq<TokenRule>)
  {
    forall i, j :: 0 <= i < j < |rs| ==> RuleLe(rs[i], rs[j])
  }

  // ---------------------------------------------------------------------------
  // The comparator is a strict total order on rules.

  lemma RuleLessIrreflexive(a: TokenRule)
    ensures !RuleLess(a, a)
  {
    Strings.LessIrreflexive(a.awsArn);
  }

  lemma RuleLessAsymmetric(a: TokenRule, b: TokenRule)
    requires RuleLess(a, b)
    ensures !RuleLess(b, a)
  {
    Strings.LessAsymmetric(a.awsAccount, b.awsAccount);
    Strings.LessAsymmetric(a.awsArn, b.awsArn);
  }

  lemma RuleLessTransitive(a: TokenRule, b: TokenRule, c: TokenRule)
    requires RuleLess(a, b) && RuleLess(b, c)
    ensures RuleLess(a, c)
  {
    if a.awsAccount == b.awsAccount && b.awsAccount == c.awsAccount {
      Strings.LessTransitive(a.awsArn, b.awsArn, c.awsArn);
    } else if a.awsAccount != b.awsAccount && b.awsAccount != c.awsAccount {
      Strings.LessTransitive(a.awsAccount, b.awsAccount, c.awsAccount);
      Strings.LessAsymmetric(a.awsAccount, b.awsAccount);
    }
  }

  lemma RuleLessTotal(a: TokenRule, b: TokenRule)
    requires a != b
    ensures RuleLess(a, b) || RuleLess(b, a)
  {
    if a.awsAccount != b.awsAccount {
      Strings.LessTotal(a.awsAccount, b.awsAccount);
    } else {
      Strings.LessTotal(a.awsArn, b.awsArn);
    }
  }

  lemma RuleLeTransitive(a: TokenRule, b: TokenRule, c: TokenRule)
    requires RuleLe(a, b) && RuleLe(b, c)
    ensures RuleLe(a, c)
  {
    if a != b && b != c {
      RuleLessTransitive(a, b, c);
    }
  }

  lemma RuleLeAntisymmetric(a: TokenRule, b: TokenRule)
    requires RuleLe(a, b) && RuleLe(b, a)
    ensures a == b
  {
    if a != b {
      RuleLessAsymmetric(a, b);
    }
  }

  // ---------------------------------------------------------------------------
  // sortRules

  /** Places `r` into an already sorted sequence. */
  function Insert(r: TokenRule, rs: seq<TokenRule>): (out: seq<TokenRule>)
    requires Sorted(rs)
    ensures Sorted(out)
    ensures multiset(out) == multiset(rs) + multiset{r}
    decreases |rs|
  {
    if |rs| == 0 then [r]
    else if RuleLe(r, rs[0]) then
      InsertFrontSorted(r, rs);
      [r] + rs
    else
      var tail := Insert(r, rs[1..]);
      InsertBehindHead(r, rs, tail);
      [rs[0]] + tail
  }

  lemma InsertFrontSorted(r: TokenRule, rs: seq<TokenRule>)
    requires Sorted(rs) && |rs| > 0 && RuleLe(r, rs[0])
    ensures Sorted([r] + rs)
  {
    var out := [r] + rs;
    forall i, j | 0 <= i < j < |out|
      ensures RuleLe(out[i], out[j])
    {
      if i == 0 && j > 1 {
        RuleLeTransitive(r, rs[0], rs[j - 1]);
      }
    }
  }

  lemma InsertBehindHead(r: TokenRule, rs: seq<TokenRule>, tail: seq<TokenRule>)
    requires Sorted(rs) && |rs| > 0 && !RuleLe(r, rs[0])
    requires Sorted(tail) && multiset(tail) == multiset(rs[1..]) + multiset{r}
    ensures Sorted([rs[0]] + tail)
    ensures multiset([rs[0]] + tail) == multiset(rs) + multiset{r}
  {
    RuleLessTotal(r, rs[0]);
    assert rs == [rs[0]] + rs[1..];
    var out := [rs[0]] + tail;
    forall j | 0 < j < |out|
      ensures RuleLe(rs[0], out[j])
    {
      assert out[j] in multiset(tail);
      if out[j] != r {
        assert out[j] in rs[1..];
      }
    }
  }

  /** `sortRules`: the rules in ascending (account, ARN) order. */
  function SortRules(rs: seq<TokenRule>): (out: seq<TokenRule>)
    ensures Sorted(out)
    ensures multiset(out) == multiset(rs)
    decreases |rs|
  {
    if |rs| == 0 then []
    else
      assert rs == [rs[0]] + rs[1..];
      Insert(rs[0], SortRules(rs[1..]))
  }

  /** The head of a sorted sequence is at most every rule in it. */
  lemma SortedHeadLeast(a: seq<TokenRule>, x: TokenRule)
    requires Sorted(a) && x in a
    ensures RuleLe(a[0], x)
  {
    var k :| 0 <= k < |a| && a[k] == x;
    if k > 0 {
      assert RuleLe(a[0], a[k]);
    }
  }

  /** Two sorted sequences holding the same rules are identical. */
  lemma {:induction false} SortedUnique(a: seq<TokenRule>, b: seq<TokenRule>)
    requires Sorted(a) && Sorted(b)
    requires multiset(a) == multiset(b)
    ensures a == b
    decreases |a|
  {
    assert |a| == |multiset(a)| == |multiset(b)| == |b|;
    if |a| > 0 {
      assert b[0] in multiset(b) && a[0] in multiset(a);
      SortedHeadLeast(a, b[0]);
      SortedHeadLeast(b, a[0]);
      RuleLeAntisymmetric(a[0], b[0]);
      MultisetOfTail(a);
      MultisetOfTail(b);
      SortedTail(a);
      SortedTail(b);
      SortedUnique(a[1..], b[1..]);
      assert a == [a[0]] + a[1..] && b == [b[0]] + b[1..];
    }
  }

  lemma MultisetOfTail(a: seq<TokenRule>)
    requires |a| > 0
    ensures multiset(a[1..]) == multiset(a) - multiset{a[0]}
  {
    assert a == [a[0]] + a[1..];
  }

  lemma SortedTail(a: seq<TokenRule>)
    requires Sorted(a) && |a| > 0
    ensures Sorted(a[1..])
  {
    forall i, j | 0 <= i < j < |a| - 1
      ensures RuleLe(a[1..][i], a[1..][j])
    {
      assert a[1..][i] == a[i + 1] && a[1..][j] == a[j + 1];
    }
  }

  /** Already ordered input comes back unchanged. */
  lemma SortRulesKeepsSorted(rs: seq<TokenRule>)
    requires Sorted(rs)
    ensures SortRules(rs) == rs
  {
    SortedUnique(SortRules(rs), rs);
  }

  lemma SortRulesIdempotent(rs: seq<TokenRule>)
    ensures SortRules(SortRules(rs)) == SortRules(rs)
  {
    SortRulesKeepsSorted(SortRules(rs));
  }

  /** The sorted order depends only on which rules are present, not on their order. */
  lemma SortRulesOrderIndependent(a: seq<TokenRule>, b: seq<TokenRule>)
    requires multiset(a) == multiset(b)
    ensures SortRules(a) == SortRules(b)
  {
    SortedUnique(SortRules(a), SortRules(b));
  }

  /** Two lists sort to the same sequence exactly when they hold the same rules equally often. */
  lemma SortRulesEqualIffPermutation(a: seq<TokenRule>, b: seq<TokenRule>)
    ensures SortRules(a) == SortRules(b) <==> multiset(a) == multiset(b)
  {
    if multiset(a) == multiset(b) {
      SortRulesOrderIndependent(a, b);
    }
  }

  // ---------------------------------------------------------------------------
  // isSameRuleSet

  /**
   * `isSameRuleSet`: sort both lists and compare them element by element. Same
   * rule set means: the same rules, each as often, in any order.
   */
  predicate IsSameRuleSet(r1: seq<TokenRule>, r2: seq<TokenRule>): (same: bool)
    ensures same <==> multiset(r1) == multiset(r2)
  {
    SortRulesEqualIffPermutation(r1, r2);
    SortRules(r1) == SortRules(r2)
  }

  /** A rule present in one list and missing from the other makes the sets differ. */
  lemma IsSameRuleSetRejectsMissingRule(r1: seq<TokenRule>, r2: seq<TokenRule>, r: TokenRule)
    requires r in r1 && r !in r2
    ensures !IsSameRuleSet(r1, r2)
  {
    assert r in multiset(r1) && r !in multiset(r2);
  }

  // ---------------------------------------------------------------------------
  // generateIAMTokenName

  newtype uint32 = x: int | 0 <= x < 0x1_0000_0000

  const IAMTokenNamePrefix: string := "teleport-ui-iam-"

  /**
    `generateIAMTokenName`: the prefix followed by the decimal value of a 32-bit
    hash of the sorted rules. The hash itself (FNV-1a over the concatenated
    fields) is the oracle `hash`.
   */
  function GenerateIAMTokenName(rules: seq<TokenRule>, hash: seq<TokenRule> -> uint32): (name: string)
    ensures |name| > |IAMTokenNamePrefix| && name[..|IAMTokenNamePrefix|] == IAMTokenNamePrefix
    ensures Strings.AllDigits(name[|IAMTokenNamePrefix|..])
  {
    IAMTokenNamePrefix + Strings.Decimal(hash(SortRules(rules)) as nat)
  }

  /** Reordering the rules does not change the token name. */
  lemma IAMTokenNameOrderIndependent(a: seq<TokenRule>, b: seq<TokenRule>, hash: seq<TokenRule> -> uint32)
    requires multiset(a) == multiset(b)
    ensures GenerateIAMTokenName(a, hash) == GenerateIAMTokenName(b, hash)
  {
    SortRulesOrderIndependent(a, b);
  }

  /** Two rule lists share a token name exactly when the hash of their sorted forms agrees. */
  lemma IAMTokenNameMatchesHash(a: seq<TokenRule>, b: seq<TokenRule>, hash: seq<TokenRule> -> uint32)
    ensures GenerateIAMTokenName(a, hash) == GenerateIAMTokenName(b, hash)
        <==> hash(SortRules(a)) == hash(SortRules(b))
  {
    var p := |IAMTokenNamePrefix|;
    var na, nb := GenerateIAMTokenName(a, hash), GenerateIAMTokenName(b, hash);
    if na == nb {
      assert na[p..] == Strings.Decimal(hash(SortRules(a)) as nat);
      assert nb[p..] == Strings.Decimal(hash(SortRules(b)) as nat);
      Strings.DecimalInjective(hash(SortRules(a)) as nat, hash(SortRules(b)) as nat);
    }
  }
}
