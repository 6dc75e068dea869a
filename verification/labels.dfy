/**
 `add_warming_label_if_not_present`: look up the first label named "Warming"
 in the account's label list and create one only when there is none. The label
 list is the remote label store; creation appends a record whose id the remote
 service chooses, given here as a parameter.
 */
module Labels {
  import opened Wrappers
  import opened Gmail

  /** The name of the label warming messages are moved to. */
  const WarmingName: string := "Warming"

  /** Visibility settings the label is created with. */
  const CreatedLabelListVisibility: string := "labelHide"
  const CreatedMessageListVisibility: string := "show"

  /** Position `k` holds the first label called `name`. */
  ghost predicate IsFirstNamed(labels: seq<Label>, name: string, k: int) {
    && 0 <= k < |labels|
    && labels[k].name == name
    && forall j :: 0 <= j < k ==> labels[j].name != name
  }

  /** No label is called `name`. */
  ghost predicate NoneNamed(labels: seq<Label>, name: string) {
    forall k :: 0 <= k < |labels| ==> labels[k].name != name
  }

  /** How many labels are called `name`. */
  function CountNamed(labels: seq<Label>, name: string): nat
    decreases |labels|
  {
    if |labels| == 0 then 0
    else (if labels[0].name == name then 1 else 0) + CountNamed(labels[1..], name)
  }

  /** The position of the first label called `name` at or after `from`, scanning left to right. */
  function FindNamedFrom(labels: seq<Label>, name: string, from: nat): (r: Option<nat>)
    requires from <= |labels|
    requires forall j :: 0 <= j < from ==> labels[j].name != name
    ensures r.None? <==> NoneNamed(labels, name)
    ensures r.Some? ==> IsFirstNamed(labels, name, r.value)
    decreases |labels| - from
  {
    if from == |labels| then None
    else if labels[from].name == name then Some(from)
    else FindNamedFrom(labels, name, from + 1)
  }

  /** The label a creation request produces. */
  function CreatedWarmingLabel(id: LabelId): Label {
    Label(id, WarmingName, CreatedLabelListVisibility, CreatedMessageListVisibility)
  }

  /** The label id handed back to the caller and the label store afterwards. */
  datatype LabelSetup = LabelSetup(labelId: LabelId, labels: seq<Label>)

  /**
   Get-or-create: when some label is called "Warming", the id of the first such
   label is returned and the store is unchanged; otherwise one "Warming" label
   with id `createdId` is appended and its id returned.
   */
  function AddWarmingLabelIfNotPresent(labels: seq<Label>, createdId: LabelId): (r: LabelSetup)
    ensures forall k :: IsFirstNamed(labels, WarmingName, k) ==> r == LabelSetup(labels[k].id, labels)
    ensures NoneNamed(labels, WarmingName) ==> r == LabelSetup(createdId, labels + [CreatedWarmingLabel(createdId)])
  {
    match FindNamedFrom(labels, WarmingName, 0)
    case Some(k) => LabelSetup(labels[k].id, labels)
    case None => LabelSetup(createdId, labels + [CreatedWarmingLabel(createdId)])
  }

  /** A second call finds what the first one found or created: same id, store unchanged. */
  lemma SetupIdempotent(labels: seq<Label>, createdId: LabelId, createdId': LabelId)
    ensures var first := AddWarmingLabelIfNotPresent(labels, createdId);
      AddWarmingLabelIfNotPresent(first.labels, createdId') == first
  {
    var first := AddWarmingLabelIfNotPresent(labels, createdId);
    var k :| IsFirstNamed(first.labels, WarmingName, k) by {
      var found := FindNamedFrom(labels, WarmingName, 0);
      if found.Some? {
        assert IsFirstNamed(first.labels, WarmingName, found.value);
      } else {
        assert IsFirstNamed(first.labels, WarmingName, |labels|);
      }
    }
  }

  /** Counting over a concatenation adds up. */
  lemma {:induction false} CountNamedConcat(a: seq<Label>, b: seq<Label>, name: string)
    ensures CountNamed(a + b, name) == CountNamed(a, name) + CountNamed(b, name)
    decreases |a|
  {
    if |a| == 0 {
      assert a + b == b;
    } else {
      assert (a + b)[1..] == a[1..] + b;
      CountNamedConcat(a[1..], b, name);
    }
  }

  /** No label is called `name` iff the count is zero. */
  lemma {:induction false} CountNamedZero(labels: seq<Label>, name: string)
    ensures CountNamed(labels, name) == 0 <==> NoneNamed(labels, name)
    decreases |labels|
  {
    if |labels| > 0 {
      CountNamedZero(labels[1..], name);
      if NoneNamed(labels[1..], name) && labels[0].name != name {
        forall k | 0 < k < |labels|
          ensures labels[k].name != name
        {
          assert labels[k] == labels[1..][k - 1];
        }
      }
    }
  }

  /**
   One call creates at most one "Warming" label, and only when there was none;
   afterwards the store holds at least one.
   */
  lemma SetupCreatesAtMostOne(labels: seq<Label>, createdId: LabelId)
    ensures var after := AddWarmingLabelIfNotPresent(labels, createdId).labels;
      CountNamed(after, WarmingName)
        == if CountNamed(labels, WarmingName) == 0 then 1 else CountNamed(labels, WarmingName)
  {
    CountNamedZero(labels, WarmingName);
    var found := FindNamedFrom(labels, WarmingName, 0);
    if found.None? {
      CountNamedConcat(labels, [CreatedWarmingLabel(createdId)], WarmingName);
    }
  }

  /** Starting from a store without a "Warming" label, two calls leave exactly one, and return the same id. */
  lemma TwoSetupsLeaveExactlyOne(labels: seq<Label>, createdId: LabelId, createdId': LabelId)
    requires NoneNamed(labels, WarmingName)
    ensures var first := AddWarmingLabelIfNotPresent(labels, createdId);
      var second := AddWarmingLabelIfNotPresent(first.labels, createdId');
      second.labelId == first.labelId == createdId && CountNamed(second.labels, WarmingName) == 1
  {
    SetupIdempotent(labels, createdId, createdId');
    SetupCreatesAtMostOne(labels, createdId);
    CountNamedZero(labels, WarmingName);
  }

}
