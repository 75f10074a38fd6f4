/**
 * The reviewer dashboard's data logic (client/src/ReviewerDashboard.tsx):
 * the id-keyed index of fetched reviews, the "Needs Review" and "Confirmed"
 * lists, the two badges, and the fixed quick-confirm payload. Fetching and
 * rendering are not modelled; the fetched lists are inputs.
 */
module Dashboard {
  import opened Wrappers
  import opened Text

  /** An item of the reviews list; absent JSON fields are None. */
  datatype ReviewItem = ReviewItem(id: Option<string>, decision: Option<string>, reasoningLog: Option<string>)

  /** An item of the applications list. */
  datatype AppItem = AppItem(
    id: string,
    applicantId: Option<string>,
    jobId: Option<string>,
    submissionDate: Option<string>,
    currentStatus: Option<bool>)

  /** The body the dashboard sends to the finalize endpoint. */
  datatype FinalizePayload = FinalizePayload(decision: string, reviewerId: string, reasoningLog: string)

  /** The reviewer's form: decision, reviewer id and notes. */
  datatype FormState = FormState(decision: string, reviewerId: string, reasoningLog: string)

  /** `if (item.id)`: the item is indexed. */
  predicate HasId(item: ReviewItem) {
    Truthy(item.id)
  }

  /** The reviews index after the `forEach` has visited every item of `items` in order. */
  function ReviewsIndex(items: seq<ReviewItem>): (r: map<string, ReviewItem>)
    ensures forall k :: k in r ==> HasId(r[k]) && r[k].id.value == k && r[k] in items
    decreases |items|
  {
    if items == [] then map[]
    else
      var index := ReviewsIndex(items[..|items| - 1]);
      var item := items[|items| - 1];
      if HasId(item) then index[item.id.value := item] else index
  }

  /** `r.forEach(item => { if (item.id) map[item.id] = item; })`. */
  method BuildReviewsIndex(items: seq<ReviewItem>) returns (index: map<string, ReviewItem>)
    ensures index == ReviewsIndex(items)
  {
    index := map[];
    for i := 0 to |items|
      invariant index == ReviewsIndex(items[..i])
    {
      assert items[..i + 1][..i] == items[..i];
      if HasId(items[i]) {
        index := index[items[i].id.value := items[i]];
      }
    }
    assert items[..|items|] == items;
  }

  /** `items[i]` is the last item whose id is `k`. */
  predicate IsLastWithId(items: seq<ReviewItem>, i: int, k: string) {
    0 <= i < |items| && items[i].id == Some(k)
    && forall j :: i < j < |items| ==> items[j].id != Some(k)
  }

  /** One step of the `forEach`: the index of `items` from the index of all but the last item. */
  lemma ReviewsIndexStep(items: seq<ReviewItem>)
    requires items != []
    ensures var item := items[|items| - 1];
      var before := ReviewsIndex(items[..|items| - 1]);
      ReviewsIndex(items) == if HasId(item) then before[item.id.value := item] else before
  {
  }

  /**
   * The index holds exactly the ids of the items that have a truthy id:
   * items without an id are skipped.
   */
  lemma {:induction false} ReviewsIndexKeys(items: seq<ReviewItem>)
    ensures forall k :: k in ReviewsIndex(items) <==>
      exists i :: 0 <= i < |items| && HasId(items[i]) && items[i].id.value == k
    decreases |items|
  {
    if items != [] {
      var n := |items| - 1;
      var init, item := items[..n], items[n];
      ReviewsIndexKeys(init);
      ReviewsIndexStep(items);
      var index, before := ReviewsIndex(items), ReviewsIndex(init);
      forall k | exists i :: 0 <= i < |items| && HasId(items[i]) && items[i].id.value == k
        ensures k in index
      {
        var i :| 0 <= i < |items| && HasId(items[i]) && items[i].id.value == k;
        if i < n {
          assert init[i] == items[i];
          assert k in before;
        }
      }
      forall k | k in index
        ensures exists i :: 0 <= i < |items| && HasId(items[i]) && items[i].id.value == k
      {
        if !(HasId(item) && item.id.value == k) {
          assert k in before;
          var i :| 0 <= i < |init| && HasId(init[i]) && init[i].id.value == k;
          assert items[i] == init[i];
        }
      }
    }
  }

  /**
   * Under each id the index holds the last item carrying that id: when ids
   * repeat, the later item wins.
   */
  lemma {:induction false} ReviewsIndexLastWins(items: seq<ReviewItem>)
    ensures forall k :: k in ReviewsIndex(items) ==> k != ""
    ensures forall k :: k in ReviewsIndex(items) ==>
      exists i :: IsLastWithId(items, i, k) && ReviewsIndex(items)[k] == items[i]
    decreases |items|
  {
    if items != [] {
      var n := |items| - 1;
      var init, item := items[..n], items[n];
      ReviewsIndexLastWins(init);
      ReviewsIndexStep(items);
      var index, before := ReviewsIndex(items), ReviewsIndex(init);
      forall k | k in index
        ensures exists i :: IsLastWithId(items, i, k) && index[k] == items[i]
      {
        if HasId(item) && item.id.value == k {
          assert IsLastWithId(items, n, k);
        } else {
          assert k in before && index[k] == before[k];
          var i :| IsLastWithId(init, i, k) && before[k] == init[i];
          assert k != "";
          assert IsLastWithId(items, i, k);
        }
      }
    }
  }

  /** Two reviews with the same id: only the later one is shown. */
  lemma LaterReviewWins(a: ReviewItem, b: ReviewItem)
    requires HasId(a) && a.id == b.id
    ensures ReviewsIndex([a, b]) == map[a.id.value := b]
  {
    assert [a, b][..1] == [a];
    assert [a][..0] == [];
    assert ReviewsIndex([a]) == map[a.id.value := a];
  }

  /** `!a.currentStatus` is false only for `currentStatus === true`. */
  predicate IsConfirmed(app: AppItem) {
    app.currentStatus == Some(true)
  }

  /** `applications.filter(a => confirmed == !!a.currentStatus)`. */
  function Section(apps: seq<AppItem>, confirmed: bool): (r: seq<AppItem>)
    ensures |r| <= |apps|
    ensures forall a :: a in r <==> a in apps && IsConfirmed(a) == confirmed
  {
    if apps == [] then []
    else if IsConfirmed(apps[0]) == confirmed then [apps[0]] + Section(apps[1..], confirmed)
    else Section(apps[1..], confirmed)
  }

  /** The "Needs Review" list. */
  function NeedsReview(apps: seq<AppItem>): (r: seq<AppItem>)
    ensures forall a :: a in r <==> a in apps && !IsConfirmed(a)
  {
    Section(apps, false)
  }

  /** The "Confirmed" list. */
  function Confirmed(apps: seq<AppItem>): (r: seq<AppItem>)
    ensures forall a :: a in r <==> a in apps && IsConfirmed(a)
  {
    Section(apps, true)
  }

  /** Every application is listed exactly once, in one of the two lists. */
  lemma {:induction false} SectionsPartition(apps: seq<AppItem>)
    ensures multiset(NeedsReview(apps)) + multiset(Confirmed(apps)) == multiset(apps)
    ensures |NeedsReview(apps)| + |Confirmed(apps)| == |apps|
  {
    if apps != [] {
      SectionsPartition(apps[1..]);
      assert apps == [apps[0]] + apps[1..];
    }
  }

  /**
   * Filtering commutes with concatenation, so each list keeps the order the
   * applications were fetched in.
   */
  lemma {:induction false} SectionKeepsOrder(a: seq<AppItem>, b: seq<AppItem>, confirmed: bool)
    ensures Section(a + b, confirmed) == Section(a, confirmed) + Section(b, confirmed)
  {
    if a != [] {
      assert (a + b)[1..] == a[1..] + b;
      SectionKeepsOrder(a[1..], b, confirmed);
    } else {
      assert a + b == b;
    }
  }

  /** The row title: `app.applicantId || '—'`. */
  function RowName(app: AppItem): (r: string)
    ensures r != ""
    ensures Truthy(app.applicantId) ==> r == app.applicantId.value
    ensures !Truthy(app.applicantId) ==> r == "—"
  {
    if Truthy(app.applicantId) then app.applicantId.value else "—"
  }

  /** `decision.toLowerCase().includes('human')` for a truthy decision. */
  predicate MentionsHuman(decision: string) {
    decision != "" && Contains(ToLower(decision), "human")
  }

  /** The "Human" badge on a Needs Review row. */
  predicate HumanBadge(index: map<string, ReviewItem>, appId: string) {
    appId in index && index[appId].decision.Some? && MentionsHuman(index[appId].decision.value)
  }

  /**
   * The badge test is case-insensitive: it holds exactly when "human"
   * occurs, in any mix of case, somewhere in the decision.
   */
  lemma MentionsHumanIgnoresCase(d: string, e: string)
    requires EqualIgnoringCase(d, e)
    ensures MentionsHuman(d) <==> MentionsHuman(e)
    ensures MentionsHuman(d) <==> d != "" && exists i :: OccursAt(ToLower(d), "human", i)
  {
    ToLowerIgnoresCase(d, e);
    ContainsIffOccurs(ToLower(d), "human");
  }

  /**
   * The badge of a row follows the last fetched review for that application:
   * it shows exactly when such a review exists and its decision is non-empty
   * and mentions "human".
   */
  lemma HumanBadgeFollowsLastReview(items: seq<ReviewItem>, appId: string)
    ensures HumanBadge(ReviewsIndex(items), appId) <==>
      exists i :: IsLastWithId(items, i, appId) && appId != ""
        && items[i].decision.Some? && MentionsHuman(items[i].decision.value)
  {
    ReviewsIndexKeys(items);
    ReviewsIndexLastWins(items);
    var index := ReviewsIndex(items);
    if exists i :: IsLastWithId(items, i, appId) && appId != ""
        && items[i].decision.Some? && MentionsHuman(items[i].decision.value) {
      var i :| IsLastWithId(items, i, appId) && appId != ""
        && items[i].decision.Some? && MentionsHuman(items[i].decision.value);
      assert HasId(items[i]);
      var j :| IsLastWithId(items, j, appId) && index[appId] == items[j];
      assert i == j;
    }
  }

  /** A string in which the first letter of `t` never occurs does not contain `t`. */
  lemma {:induction false} MissingLetterNotContained(s: string, t: string)
    requires t != []
    requires forall i :: 0 <= i < |s| ==> s[i] != t[0]
    ensures !Contains(s, t)
    decreases |s|
  {
    if s != [] {
      assert |t| <= |s| ==> s[..|t|][0] == s[0];
      MissingLetterNotContained(s[1..], t);
    }
  }

  /** A string whose leading characters lower-case to `t` contains `t` after lowering. */
  lemma LowerPrefixContained(s: string, t: string)
    requires |t| <= |s|
    requires forall i :: 0 <= i < |t| ==> LowerChar(s[i]) == t[i]
    ensures Contains(ToLower(s), t)
  {
    assert ToLower(s)[..|t|] == t;
  }

  /** A string in which neither 'h' nor 'H' occurs does not mention "human" after lowering. */
  lemma NoAitchNoHuman(s: string)
    requires forall i :: 0 <= i < |s| ==> s[i] != 'h' && s[i] != 'H'
    ensures !Contains(ToLower(s), "human")
  {
    MissingLetterNotContained(ToLower(s), "human");
  }

  /** A decision starting with "human" in any case mentions it. */
  lemma StartsWithHumanMentionsIt(d: string)
    requires |d| >= 5 && forall i :: 0 <= i < 5 ==> LowerChar(d[i]) == "human"[i]
    ensures MentionsHuman(d)
  {
    LowerPrefixContained(d, "human");
  }

  /** The human-review decision the form offers is badged. */
  lemma HumanReviewDecisionBadged()
    ensures MentionsHuman("Human Review Requested")
  {
    StartsWithHumanMentionsIt("Human Review Requested");
  }

  /** So is the same decision written in capitals. */
  lemma UpperCaseHumanBadged()
    ensures MentionsHuman("HUMAN REVIEW")
  {
    StartsWithHumanMentionsIt("HUMAN REVIEW");
  }

  /** The two other decisions the form offers are not badged. */
  lemma QualificationDecisionsNotBadged()
    ensures !MentionsHuman("Qualified")
    ensures !MentionsHuman("Not Qualified")
  {
    NoAitchNoHuman("Qualified");
    NoAitchNoHuman("Not Qualified");
  }

  /** The badge of a Confirmed row: "AI: <decision>" when there is a decision, "Reviewed" otherwise. */
  function ConfirmedBadge(index: map<string, ReviewItem>, appId: string): (r: string)
    ensures (|r| >= 4 && r[..4] == "AI: ") <==> appId in index && Truthy(index[appId].decision)
    ensures appId in index && Truthy(index[appId].decision) ==> r[4..] == index[appId].decision.value
    ensures !(appId in index && Truthy(index[appId].decision)) ==> r == "Reviewed"
  {
    if appId in index && Truthy(index[appId].decision) then "AI: " + index[appId].decision.value
    else assert "Reviewed"[0] != "AI: "[0]; "Reviewed"
  }

  /** The payload of the Finalize button: the form as it stands. */
  function FinalizeFromForm(form: FormState): FinalizePayload {
    FinalizePayload(form.decision, form.reviewerId, form.reasoningLog)
  }

  /** Finalize sends the whole form: two forms give the same payload only when they are the same form. */
  lemma FinalizeCarriesForm(form: FormState, other: FormState)
    ensures FinalizeFromForm(form) == FinalizeFromForm(other) <==> form == other
  {
  }

  /** The payload of the Quick button, built without looking at the form. */
  function QuickConfirmPayload(form: FormState): FinalizePayload {
    FinalizePayload("Qualified", "quick-confirm", "Quick confirmed via dashboard")
  }

  /**
   * Quick confirm sends the same payload whatever the form holds: the one
   * Finalize would send for a "Qualified" decision by reviewer
   * "quick-confirm". It differs from Finalize on every form but that one.
   */
  lemma QuickConfirmIgnoresForm(form: FormState, other: FormState)
    ensures QuickConfirmPayload(form) == QuickConfirmPayload(other)
    ensures QuickConfirmPayload(form) == FinalizeFromForm(form)
        <==> form == FormState("Qualified", "quick-confirm", "Quick confirmed via dashboard")
  {
  }
}
