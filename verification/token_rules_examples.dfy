/**
  The table-driven cases of the join-token helper tests, proved about the model.
 */
module TokenRulesExamples {
  import opened TokenRules

  /** The "same account ID, different ARN" case of the sorting test: the ARN breaks the tie. */
  lemma SortRulesSameAccountDifferentArn()
    ensures SortRules([TokenRule("100000000000", "arn:aws:iam:b"), TokenRule("100000000000", "arn:aws:iam:a")])
         == [TokenRule("100000000000", "arn:aws:iam:a"), TokenRule("100000000000", "arn:aws:iam:b")]
  {
    var input := [TokenRule("100000000000", "arn:aws:iam:b"), TokenRule("100000000000", "arn:aws:iam:a")];
    var expected := [TokenRule("100000000000", "arn:aws:iam:a"), TokenRule("100000000000", "arn:aws:iam:b")];
    assert Sorted(expected);
    assert multiset(input) == multiset(expected);
    SortedUnique(SortRules(input), expected);
  }

  /** The "different account ID, with ARN" case of the sorting test: the account decides. */
  lemma SortRulesDifferentAccountWithArn()
    ensures SortRules([TokenRule("200000000000", "arn:aws:iam:b"), TokenRule("100000000000", "arn:aws:iam:b")])
         == [TokenRule("100000000000", "arn:aws:iam:b"), TokenRule("200000000000", "arn:aws:iam:b")]
  {
    var input := [TokenRule("200000000000", "arn:aws:iam:b"), TokenRule("100000000000", "arn:aws:iam:b")];
    var expected := [TokenRule("100000000000", "arn:aws:iam:b"), TokenRule("200000000000", "arn:aws:iam:b")];
    assert Sorted(expected);
    assert multiset(input) == multiset(expected);
    SortedUnique(SortRules(input), expected);
  }

  /** The "empty slice" case of the rule-set comparison test. */
  lemma EmptyRuleSets()
    ensures IsSameRuleSet([], [])
  {
  }

  /** The "simple identical rules" case. */
  lemma SimpleIdenticalRules()
    ensures IsSameRuleSet([TokenRule("123123123123", "")], [TokenRule("123123123123", "")])
  {
  }

  /** The "different rules" case: the accounts differ. */
  lemma DifferentRules()
    ensures !IsSameRuleSet([TokenRule("123123123123", "")], [TokenRule("111111111111", "")])
  {
    IsSameRuleSetRejectsMissingRule([TokenRule("123123123123", "")], [TokenRule("111111111111", "")], TokenRule("123123123123", ""));
  }

  /** The "same rules in different order" case of the rule-set comparison test. */
  lemma SameRulesInDifferentOrder()
    ensures IsSameRuleSet(
      [TokenRule("123123123123", ""), TokenRule("222222222222", ""), TokenRule("111111111111", "arn:*")],
      [TokenRule("222222222222", ""), TokenRule("111111111111", "arn:*"), TokenRule("123123123123", "")])
  {
    var r1 := [TokenRule("123123123123", ""), TokenRule("222222222222", ""), TokenRule("111111111111", "arn:*")];
    var r2 := [TokenRule("222222222222", ""), TokenRule("111111111111", "arn:*"), TokenRule("123123123123", "")];
    assert multiset(r1) == multiset(r2);
  }

  /** The "almost the same rules" case: one ARN is a character shorter. */
  lemma AlmostTheSameRules()
    ensures !IsSameRuleSet(
      [TokenRule("123123123123", ""), TokenRule("222222222222", ""), TokenRule("111111111111", "arn:*")],
      [TokenRule("123123123123", ""), TokenRule("222222222222", ""), TokenRule("111111111111", "arn:")])
  {
    var r1 := [TokenRule("123123123123", ""), TokenRule("222222222222", ""), TokenRule("111111111111", "arn:*")];
    var r2 := [TokenRule("123123123123", ""), TokenRule("222222222222", ""), TokenRule("111111111111", "arn:")];
    IsSameRuleSetRejectsMissingRule(r1, r2, TokenRule("111111111111", "arn:*"));
  }

  /** Two rules give the same token name whichever order they are listed in. */
  lemma IAMTokenNameTwoRulesEitherOrder(hash: seq<TokenRule> -> uint32)
    ensures GenerateIAMTokenName([TokenRule("100000000000", "arn:aws:iam:1"), TokenRule("200000000000", "arn:aws:iam:b")], hash)
         == GenerateIAMTokenName([TokenRule("200000000000", "arn:aws:iam:b"), TokenRule("100000000000", "arn:aws:iam:1")], hash)
  {
    var a := [TokenRule("100000000000", "arn:aws:iam:1"), TokenRule("200000000000", "arn:aws:iam:b")];
    var b := [TokenRule("200000000000", "arn:aws:iam:b"), TokenRule("100000000000", "arn:aws:iam:1")];
    assert multiset(a) == multiset(b);
    IAMTokenNameOrderIndependent(a, b, hash);
  }
}
