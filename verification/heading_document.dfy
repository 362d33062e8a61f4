/**
 The ids of a whole document (fn0/control/rs/build.rs:444-483): which ids are chosen, as a
 function of the events, and when they are distinct from the ids the document came with.
 */
module HeadingDocument {
  import opened DocTypes
  import opened Collections
  import opened HeadingIds

  // ---- The choice is a function of the document --------------------------------------

  function IdsOf(choices: seq<Choice>): (ids: seq<string>)
    ensures |ids| == |choices|
  {
    seq(|choices|, i requires 0 <= i < |choices| => choices[i].id)
  }

  /** The first candidate that is not used, given that those before the `n`th are. */
  function FirstUnused(slug: string, used: seq<string>, n: nat): (id: string)
    requires n >= 1 && forall m :: 1 <= m < n ==> Candidate(slug, m) in used
    ensures id !in used
    ensures exists k :: k >= 1 && id == Candidate(slug, k) && forall m :: 1 <= m < k ==> Candidate(slug, m) in used
    decreases |used| + 1 - n
  {
    Pigeonhole(used, slug, n - 1);
    if Candidate(slug, n) !in used then Candidate(slug, n)
    else
      Pigeonhole(used, slug, n);
      FirstUnused(slug, used, n + 1)
  }

  /** The choices for the headings from `index` on, after those already made. */
  function ChoicesFrom(events: seq<Event>, unicode: Unicode, index: nat, choices: seq<Choice>): seq<Choice>
    decreases |events| - index
  {
    if index >= |events| then choices
    else if events[index] == StartHeading(None) then
      ChoicesFrom(events, unicode, HeadingEnd(events, index + 1) + 1,
                  choices + [Choice(index, FirstUnused(BaseSlug(events, index, unicode), IdsOf(choices), 1))])
    else ChoicesFrom(events, unicode, index + 1, choices)
  }

  /** The ids of a document, computed from its events alone. */
  function Choices(events: seq<Event>, unicode: Unicode): seq<Choice> {
    ChoicesFrom(events, unicode, 0, [])
  }

  lemma NextChoice(events: seq<Event>, unicode: Unicode, index: nat, choices: seq<Choice>) returns (next: seq<Choice>)
    requires index < |events| && events[index] == StartHeading(None)
    requires Choosing(events, unicode, choices, IdsOf(choices), index)
    ensures next == choices + [Choice(index, FirstUnused(BaseSlug(events, index, unicode), IdsOf(choices), 1))]
    ensures Choosing(events, unicode, next, IdsOf(next), HeadingEnd(events, index + 1) + 1)
  {
    var slug, used := BaseSlug(events, index, unicode), IdsOf(choices);
    var id := FirstUnused(slug, used, 1);
    next := choices + [Choice(index, id)];
    var k :| k >= 1 && id == Candidate(slug, k) && forall m :: 1 <= m < k ==> Candidate(slug, m) in used;
    UniqueIsFirstFree(slug, used, choices, id, k);
    ChoosingStep(events, unicode, choices, used, index, id);
    assert IdsOf(next) == used + [id];
  }

  lemma {:induction false} ChoicesFromAreChosen(events: seq<Event>, unicode: Unicode, index: nat, choices: seq<Choice>)
    returns (all: seq<Choice>)
    requires Choosing(events, unicode, choices, IdsOf(choices), index)
    ensures all == ChoicesFrom(events, unicode, index, choices)
    ensures Chosen(events, unicode, all)
    decreases |events| - index
  {
    if index >= |events| {
      ChoosingDone(events, unicode, choices, IdsOf(choices), index);
      return choices;
    }
    if events[index] != StartHeading(None) {
      ChoosingSkip(events, unicode, choices, IdsOf(choices), index);
      all := ChoicesFromAreChosen(events, unicode, index + 1, choices);
      return;
    }
    var next := NextChoice(events, unicode, index, choices);
    all := ChoicesFromAreChosen(events, unicode, HeadingEnd(events, index + 1) + 1, next);
  }

  lemma ChoicesAreChosen(events: seq<Event>, unicode: Unicode)
    ensures Chosen(events, unicode, Choices(events, unicode))
  {
    var all := ChoicesFromAreChosen(events, unicode, 0, []);
  }

  lemma FirstFreeUnique(slug: string, earlier: seq<Choice>, a: string, b: string)
    requires FirstFree(slug, earlier, a) && FirstFree(slug, earlier, b)
    requires !TakenBy(earlier, a) && !TakenBy(earlier, b)
    ensures a == b
  {
    var m :| m >= 1 && a == Candidate(slug, m) && TakenBelow(slug, earlier, m);
    var n :| n >= 1 && b == Candidate(slug, n) && TakenBelow(slug, earlier, n);
  }

  /** In a list of choices in document order, no entry can be skipped. */
  lemma NextIndexIsLeast(a: seq<Choice>, b: seq<Choice>, k: nat)
    requires InDocumentOrder(a) && InDocumentOrder(b) && Indices(a) == Indices(b)
    requires k <= |b| && k < |a| && forall j :: 0 <= j < k ==> a[j] == b[j]
    ensures k < |b| && b[k].index <= a[k].index
  {
    assert a[k].index in Indices(b);
    var j :| 0 <= j < |b| && b[j].index == a[k].index;
  }

  lemma ChosenAt(events: seq<Event>, unicode: Unicode, choices: seq<Choice>, k: nat)
    requires Chosen(events, unicode, choices) && k < |choices|
    ensures choices[k].index < |events|
    ensures FirstFree(BaseSlug(events, choices[k].index, unicode), choices[..k], choices[k].id)
    ensures !TakenBy(choices[..k], choices[k].id)
  {
    assert ChosenRight(events, unicode, choices, k);
  }

  lemma SameNext(events: seq<Event>, unicode: Unicode, a: seq<Choice>, b: seq<Choice>, k: nat)
    requires Chosen(events, unicode, a) && Chosen(events, unicode, b)
    requires k < |a| && k <= |b| && a[..k] == b[..k]
    ensures k < |b| && a[k] == b[k]
  {
    forall j | 0 <= j < k ensures a[j] == b[j] {
      assert a[..k][j] == b[..k][j];
    }
    NextIndexIsLeast(a, b, k);
    NextIndexIsLeast(b, a, k);
    ChosenAt(events, unicode, a, k);
    ChosenAt(events, unicode, b, k);
    FirstFreeUnique(BaseSlug(events, a[k].index, unicode), a[..k], a[k].id, b[k].id);
  }

  lemma {:induction false} SamePrefix(events: seq<Event>, unicode: Unicode, a: seq<Choice>, b: seq<Choice>, k: nat)
    requires Chosen(events, unicode, a) && Chosen(events, unicode, b) && k <= |a|
    ensures k <= |b| && a[..k] == b[..k]
  {
    if k > 0 {
      SamePrefix(events, unicode, a, b, k - 1);
      SameNext(events, unicode, a, b, k - 1);
      TakeOneMore(a, k - 1);
      TakeOneMore(b, k - 1);
    }
  }

  /** The contract of `add_heading_ids` leaves no choice: there is one list that meets it. */
  lemma ChosenIsUnique(events: seq<Event>, unicode: Unicode, choices: seq<Choice>)
    requires Chosen(events, unicode, choices)
    ensures choices == Choices(events, unicode)
  {
    var all := Choices(events, unicode);
    ChoicesAreChosen(events, unicode);
    SamePrefix(events, unicode, choices, all, |choices|);
    SamePrefix(events, unicode, all, choices, |all|);
    assert choices[..|choices|] == choices && all[..|all|] == all;
  }

  /** The second pass of `add_heading_ids`: write the chosen ids into the events. */
  method WriteIds(events: array<Event>, choices: seq<Choice>)
    requires DistinctIds(choices) && forall k :: 0 <= k < |choices| ==> choices[k].index < events.Length
    modifies events
    ensures forall i :: 0 <= i < events.Length && i !in Indices(choices) ==> events[i] == old(events[i])
    ensures forall k :: 0 <= k < |choices| ==> events[choices[k].index] == StartHeading(Some(choices[k].id))
  {
    for k := 0 to |choices|
      invariant forall i :: 0 <= i < events.Length && i !in Indices(choices[..k]) ==> events[i] == old(events[i])
      invariant forall m :: 0 <= m < k ==> events[choices[m].index] == StartHeading(Some(choices[m].id))
    {
      assert choices[..k + 1] == choices[..k] + [choices[k]];
      IndicesSnoc(choices[..k], choices[k]);
      events[choices[k].index] := StartHeading(Some(choices[k].id));
    }
    assert choices[..|choices|] == choices;
  }

  // ---- The ids of the whole document -------------------------------------------------

  ghost predicate HasId(events: seq<Event>, i: nat, id: string) {
    i < |events| && events[i] == StartHeading(Some(id))
  }

  ghost predicate AllIdsDistinct(events: seq<Event>) {
    forall i: nat, j: nat, id :: HasId(events, i, id) && HasId(events, j, id) ==> i == j
  }

  /** No id the document came with is one of the given ones. */
  ghost predicate ExplicitIdsAvoid(events: seq<Event>, choices: seq<Choice>) {
    forall i: nat, k :: 0 <= k < |choices| ==> !HasId(events, i, choices[k].id)
  }

  /** The chosen ids were written at their places and nothing else was. */
  ghost predicate Written(before: seq<Event>, after: seq<Event>, choices: seq<Choice>) {
    && |before| == |after|
    && (forall i :: 0 <= i < |before| && i !in Indices(choices) ==> after[i] == before[i])
    && (forall k :: 0 <= k < |choices| ==> HasId(after, choices[k].index, choices[k].id))
  }

  lemma WrittenId(before: seq<Event>, after: seq<Event>, choices: seq<Choice>, i: nat, id: string)
    requires Written(before, after, choices) && HasId(after, i, id)
    ensures HasId(before, i, id) || exists k :: 0 <= k < |choices| && choices[k] == Choice(i, id)
  {
    if i in Indices(choices) {
      var k :| 0 <= k < |choices| && choices[k].index == i;
      assert HasId(after, choices[k].index, choices[k].id);
    }
  }

  lemma KeptId(before: seq<Event>, unicode: Unicode, after: seq<Event>, choices: seq<Choice>, i: nat, id: string)
    requires Chosen(before, unicode, choices) && Written(before, after, choices) && HasId(before, i, id)
    ensures HasId(after, i, id) && i !in Indices(choices)
  {
    if i in Indices(choices) {
      UntitledAhead(before, 0, i);
      assert false;
    }
  }

  lemma DistinctWhenAvoided(before: seq<Event>, after: seq<Event>, choices: seq<Choice>, i: nat, j: nat, id: string)
    requires DistinctIds(choices) && Written(before, after, choices)
    requires AllIdsDistinct(before) && ExplicitIdsAvoid(before, choices)
    requires HasId(after, i, id) && HasId(after, j, id)
    ensures i == j
  {
    WrittenId(before, after, choices, i, id);
    WrittenId(before, after, choices, j, id);
  }

  lemma NotAlsoChosen(before: seq<Event>, unicode: Unicode, after: seq<Event>, choices: seq<Choice>, i: nat, k: nat)
    requires Chosen(before, unicode, choices) && Written(before, after, choices) && AllIdsDistinct(after)
    requires k < |choices|
    ensures !HasId(before, i, choices[k].id)
  {
    assert HasId(after, choices[k].index, choices[k].id) && choices[k].index in Indices(choices);
    if HasId(before, i, choices[k].id) {
      KeptId(before, unicode, after, choices, i, choices[k].id);
      assert false;
    }
  }

  /**
   All ids of the result are pairwise distinct exactly when the explicit ones were and
   none of them is one that `Choices` computes from the document; choosing does not look
   at them.
   */
  lemma AllIdsDistinctIff(before: seq<Event>, unicode: Unicode, after: seq<Event>, choices: seq<Choice>)
    requires Chosen(before, unicode, choices) && Written(before, after, choices)
    ensures AllIdsDistinct(after) <==> AllIdsDistinct(before) && ExplicitIdsAvoid(before, Choices(before, unicode))
  {
    ChosenIsUnique(before, unicode, choices);
    if AllIdsDistinct(before) && ExplicitIdsAvoid(before, choices) {
      forall i: nat, j: nat, id | HasId(after, i, id) && HasId(after, j, id) ensures i == j {
        DistinctWhenAvoided(before, after, choices, i, j, id);
      }
    }
    if AllIdsDistinct(after) {
      forall i: nat, j: nat, id | HasId(before, i, id) && HasId(before, j, id) ensures i == j {
        KeptId(before, unicode, after, choices, i, id);
        KeptId(before, unicode, after, choices, j, id);
      }
      forall i: nat, k: nat | k < |choices| ensures !HasId(before, i, choices[k].id) {
        NotAlsoChosen(before, unicode, after, choices, i, k);
      }
    }
  }

  lemma FirstOrTaken(slug: string, earlier: seq<Choice>, id: string)
    requires FirstFree(slug, earlier, id)
    ensures id == slug || TakenBy(earlier, slug)
  {
    var n :| n >= 1 && id == Candidate(slug, n) && TakenBelow(slug, earlier, n);
    assert Candidate(slug, 1) == slug;
  }

  /** Whatever the other headings are called, the slug of each untitled one is somebody's id. */
  lemma EveryBaseSlugIsChosen(events: seq<Event>, unicode: Unicode, choices: seq<Choice>, i: nat)
    requires Chosen(events, unicode, choices) && i in Untitled(events, 0)
    ensures i < |events| && TakenBy(choices, BaseSlug(events, i, unicode))
  {
    UntitledAhead(events, 0, i);
    var k :| 0 <= k < |choices| && choices[k].index == i;
    var slug := BaseSlug(events, i, unicode);
    ChosenAt(events, unicode, choices, k);
    FirstOrTaken(slug, choices[..k], choices[k].id);
    if choices[k].id != slug {
      var j :| 0 <= j < |choices[..k]| && choices[..k][j].id == slug;
      assert choices[j].id == slug;
    }
  }

  /** No explicit id is the slug of an untitled heading. */
  ghost predicate NoSlugIsExplicit(events: seq<Event>, unicode: Unicode) {
    forall i: nat, j: nat :: i in Untitled(events, 0) && i < |events| ==>
      !HasId(events, j, BaseSlug(events, i, unicode))
  }

  /** A document in which some untitled heading has an explicit id as its slug ends up with an id twice. */
  lemma ExplicitIdIsRepeated(before: seq<Event>, unicode: Unicode, after: seq<Event>, choices: seq<Choice>, i: nat, j: nat)
    requires Chosen(before, unicode, choices) && Written(before, after, choices)
    requires i in Untitled(before, 0) && i < |before| && HasId(before, j, BaseSlug(before, i, unicode))
    ensures !AllIdsDistinct(after)
  {
    EveryBaseSlugIsChosen(before, unicode, choices, i);
    var k: nat :| k < |choices| && choices[k].id == BaseSlug(before, i, unicode);
    if AllIdsDistinct(after) {
      NotAlsoChosen(before, unicode, after, choices, j, k);
      assert false;
    }
  }

  /** The untitled headings have pairwise different slugs. */
  ghost predicate SlugsDiffer(events: seq<Event>, unicode: Unicode) {
    forall i: nat, j: nat :: i in Untitled(events, 0) && j in Untitled(events, 0) && i < |events| && j < |events| && i != j ==>
      BaseSlug(events, i, unicode) != BaseSlug(events, j, unicode)
  }

  /** Then every heading simply gets its own slug. */
  lemma {:induction false} SlugsAreChosen(events: seq<Event>, unicode: Unicode, choices: seq<Choice>, k: nat)
    requires Chosen(events, unicode, choices) && SlugsDiffer(events, unicode) && k < |choices|
    ensures choices[k].index < |events| && choices[k].id == BaseSlug(events, choices[k].index, unicode)
  {
    ChosenAt(events, unicode, choices, k);
    var slug := BaseSlug(events, choices[k].index, unicode);
    assert forall j :: 0 <= j < |choices| ==> choices[j].index in Indices(choices);
    FirstOrTaken(slug, choices[..k], choices[k].id);
    if choices[k].id != slug {
      var j :| 0 <= j < |choices[..k]| && choices[..k][j].id == slug;
      SlugsAreChosen(events, unicode, choices, j);
      assert false;
    }
  }

  /** For such a document the condition is about slugs and explicit ids alone. */
  lemma AllIdsDistinctForDifferentSlugs(before: seq<Event>, unicode: Unicode, after: seq<Event>, choices: seq<Choice>)
    requires Chosen(before, unicode, choices) && Written(before, after, choices) && SlugsDiffer(before, unicode)
    ensures AllIdsDistinct(after) <==> AllIdsDistinct(before) && NoSlugIsExplicit(before, unicode)
  {
    AllIdsDistinctIff(before, unicode, after, choices);
    ChosenIsUnique(before, unicode, choices);
    forall i: nat, j: nat | i in Untitled(before, 0) && i < |before| && HasId(before, j, BaseSlug(before, i, unicode))
      ensures !AllIdsDistinct(after)
    {
      ExplicitIdIsRepeated(before, unicode, after, choices, i, j);
    }
    if NoSlugIsExplicit(before, unicode) {
      forall i: nat, k | 0 <= k < |choices| ensures !HasId(before, i, choices[k].id) {
        SlugsAreChosen(before, unicode, choices, k);
        assert choices[k].index in Indices(choices);
      }
    }
  }

  /**
   `add_heading_ids`: exactly the untitled headings receive an id, in document order each
   the first candidate of its own text that no earlier heading took; nothing else changes.
   With the explicit ids they are distinct exactly when no explicit id is one that
   `Choices` computes and no two explicit ids are equal.
   */
  method AddHeadingIds(events: array<Event>, unicode: Unicode) returns (ghost pending: seq<Choice>)
    modifies events
    ensures Chosen(old(events[..]), unicode, pending) && pending == Choices(old(events[..]), unicode)
    ensures Written(old(events[..]), events[..], pending)
    ensures AllIdsDistinct(events[..]) <==>
            AllIdsDistinct(old(events[..])) && ExplicitIdsAvoid(old(events[..]), Choices(old(events[..]), unicode))
  {
    ghost var before := events[..];
    var choices := ChooseIds(events[..], unicode);
    pending := choices;
    forall k | 0 <= k < |choices| ensures choices[k].index < |before| {
      ChosenAt(before, unicode, choices, k);
    }
    WriteIds(events, choices);
    ChosenIsUnique(before, unicode, choices);
    AllIdsDistinctIff(before, unicode, events[..], choices);
  }
}
