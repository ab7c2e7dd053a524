/** extract_reason (on_search_dashboard.py:53-68): the failure reason of a
    NACK, read off its lower-cased message by the first substring rule that
    matches, in a fixed priority order. */
module Reasons {
  import opened Strings
  import opened Records

  /** The seven reasons, in ascending string order (the order pandas sorts
      them in when it groups by 'Reason'). */
  const ReasonLabels: seq<string> := ["Blank response", "Inventory issue", "No catalog mapped",
    "No items found", "Other", "Provider dropped", "Timeout"]

  /** A substring rule: a message containing pattern gets reason. */
  datatype Rule = Rule(pattern: string, reason: string)

  /** The if/elif chain of extract_reason as a table, highest priority first. */
  const Rules: seq<Rule> := [Rule("timeout", "Timeout"), Rule("not found", "No items found"),
    Rule("inventory", "Inventory issue"), Rule("mapped", "No catalog mapped"),
    Rule("blank", "Blank response"), Rule("dropped", "Provider dropped")]

  /** str(msg): pandas holds a missing message as NaN, which prints as "nan". */
  function MessageText(msg: Option<string>): (text: string)
    ensures text == "nan" <==> msg == None || msg == Some("nan")
  {
    match msg
    case Some(s) => s
    case None => "nan"
  }

  /** The if/elif chain of extract_reason on the lower-cased message text. */
  function ReasonOf(m: string): (reason: string)
    ensures reason in ReasonLabels
  {
    if Contains(m, "timeout") then "Timeout"
    else if Contains(m, "not found") then "No items found"
    else if Contains(m, "inventory") then "Inventory issue"
    else if Contains(m, "mapped") then "No catalog mapped"
    else if Contains(m, "blank") then "Blank response"
    else if Contains(m, "dropped") then "Provider dropped"
    else "Other"
  }

  /** extract_reason(msg): str(msg).lower(), then the chain. */
  function ExtractReason(msg: Option<string>): (reason: string)
    ensures reason in ReasonLabels
  {
    ReasonOf(Lower(MessageText(msg)))
  }

  /** First-match classification by a rule table: the reference reading of
      an if/elif chain of substring tests. */
  function Classify(m: string, rules: seq<Rule>): (reason: string)
    ensures (forall k :: 0 <= k < |rules| ==> !Contains(m, rules[k].pattern)) ==> reason == "Other"
  {
    if rules == [] then "Other"
    else if Contains(m, rules[0].pattern) then rules[0].reason
    else Classify(m, rules[1..])
  }

  /** The reason Classify returns is that of the first rule that matches, or
      "Other" when none does. */
  lemma {:induction false} ClassifyFirstMatch(m: string, rules: seq<Rule>)
    requires forall k :: 0 <= k < |rules| ==> rules[k].reason != "Other"
    ensures Classify(m, rules) == "Other" <==> forall k :: 0 <= k < |rules| ==> !Contains(m, rules[k].pattern)
    ensures Classify(m, rules) != "Other" ==>
              exists k :: 0 <= k < |rules| && Contains(m, rules[k].pattern) && rules[k].reason == Classify(m, rules) &&
                          forall j :: 0 <= j < k ==> !Contains(m, rules[j].pattern)
  {
    if rules != [] && !Contains(m, rules[0].pattern) {
      ClassifyFirstMatch(m, rules[1..]);
      if Classify(m, rules) != "Other" {
        var k :| 0 <= k < |rules[1..]| && Contains(m, rules[1..][k].pattern) && rules[1..][k].reason == Classify(m, rules) &&
                 forall j :: 0 <= j < k ==> !Contains(m, rules[1..][j].pattern);
        assert rules[k + 1] == rules[1..][k];
        assert forall j :: 0 <= j < k + 1 ==> !Contains(m, rules[j].pattern) by {
          forall j | 0 < j < k + 1 ensures !Contains(m, rules[j].pattern) {
            assert rules[j] == rules[1..][j - 1];
          }
        }
      }
    } else if rules != [] {
      assert Contains(m, rules[0].pattern);
    }
  }

  /** The if/elif chain is Classify over the rule table. */
  lemma ChainIsClassify(m: string)
    ensures ReasonOf(m) == Classify(m, Rules)
  {
    var r0 := Rules;
    var r1 := r0[1..];
    var r2 := r1[1..];
    var r3 := r2[1..];
    var r4 := r3[1..];
    var r5 := r4[1..];
    assert r5 == [Rule("dropped", "Provider dropped")] && r5[1..] == [];
    assert Classify(m, r5) == if Contains(m, "dropped") then "Provider dropped" else "Other";
    assert r4[0] == Rule("blank", "Blank response");
    assert Classify(m, r4) == if Contains(m, "blank") then "Blank response" else Classify(m, r5);
    assert r3[0] == Rule("mapped", "No catalog mapped");
    assert Classify(m, r3) == if Contains(m, "mapped") then "No catalog mapped" else Classify(m, r4);
    assert r2[0] == Rule("inventory", "Inventory issue");
    assert Classify(m, r2) == if Contains(m, "inventory") then "Inventory issue" else Classify(m, r3);
    assert r1[0] == Rule("not found", "No items found");
    assert Classify(m, r1) == if Contains(m, "not found") then "No items found" else Classify(m, r2);
    assert r0[0] == Rule("timeout", "Timeout");
    assert Classify(m, r0) == if Contains(m, "timeout") then "Timeout" else Classify(m, r1);
  }

  /** extract_reason is first-match classification of the lower-cased
      message by the rule table: earlier rules win, and a message matching
      no pattern is "Other". */
  lemma ExtractReasonIsFirstMatch(msg: Option<string>)
    ensures var m := Lower(MessageText(msg));
            && ExtractReason(msg) == Classify(m, Rules)
            && (ExtractReason(msg) == "Other" <==> forall k :: 0 <= k < |Rules| ==> !Contains(m, Rules[k].pattern))
            && (ExtractReason(msg) != "Other" ==>
                 exists k :: 0 <= k < |Rules| && Contains(m, Rules[k].pattern) && Rules[k].reason == ExtractReason(msg) &&
                             forall j :: 0 <= j < k ==> !Contains(m, Rules[j].pattern))
  {
    var m := Lower(MessageText(msg));
    ChainIsClassify(m);
    ClassifyFirstMatch(m, Rules);
  }

  /** Matching ignores case: upper-casing the message changes nothing. */
  lemma ExtractReasonIgnoresCase(s: string)
    ensures ExtractReason(Some(Upper(s))) == ExtractReason(Some(s))
  {
    LowerOfUpper(s);
  }

  /** A string shorter than a pattern cannot contain it. */
  lemma {:induction false} ContainsNeedsLength(s: string, t: string)
    requires |s| < |t|
    ensures !Contains(s, t)
    decreases |s|
  {
    if |s| > 0 {
      ContainsNeedsLength(s[1..], t);
    }
  }

  /** A missing message ("nan") matches no rule and is classified "Other". */
  lemma MissingMessageIsOther()
    ensures ExtractReason(None) == "Other"
  {
    var m := Lower("nan");
    assert |m| == 3;
    ContainsNeedsLength(m, "timeout");
    ContainsNeedsLength(m, "not found");
    ContainsNeedsLength(m, "inventory");
    ContainsNeedsLength(m, "mapped");
    ContainsNeedsLength(m, "blank");
    ContainsNeedsLength(m, "dropped");
  }

  /** Rule 1 wins over rule 3: a message naming both a timeout and the
      inventory is a timeout. */
  lemma TimeoutWins(s: string)
    requires Contains(Lower(s), "timeout") && Contains(Lower(s), "inventory")
    ensures ExtractReason(Some(s)) == "Timeout"
  {
  }
}
