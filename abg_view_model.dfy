/** AbgViewModel.kt: the session state behind the screens (the current
    analysis, the most-recent-first history, a loading flag and an error
    text) and the six operations that change it. The coroutine launched by
    `analyzeAbg` is split into its synchronous start (`AnalyzeAbg`) and the
    step that runs when the model call returns (`Complete`, `Fail`, or
    `Resolve`, which picks one from the reply). */
module ViewModel {
  import opened Wrappers
  import opened AbgData
  import opened GeminiService

  const InvalidInputMessage: string := "Invalid ABG values. Please check your inputs."
  const GenericFailureMessage: string := "An error occurred during analysis"

  // ---------------------------------------------------------------------
  // Records the coroutine builds

  /** The record put up while the model call is in flight: a fresh id, the
      reading, the time, `isLoading = true` and every other field at its
      default. */
  function Pending(id: string, d: Measurement, t: nat): Analysis {
    WithDefaults(d, t).(id := id, isLoading := true)
  }

  /** `analysis.copy(...)` with the three parsed texts and `isLoading = false`. */
  function Completed(p: Analysis, sections: Sections): Analysis {
    p.(interpretation := sections.interpretation,
       suggestedConditions := sections.conditions,
       treatmentRecommendations := sections.treatment,
       isLoading := false)
  }

  /** `copy(isLoading = false, error = message)` applied to the current
      record at the time the failure is caught. */
  function Failed(a: Analysis, message: Option<string>): Analysis {
    a.(isLoading := false, error := message)
  }

  /** A pending record is loading, unresolved and carries the id, reading and
      time it was started with; its user id is still empty. */
  lemma PendingIsBlank(id: string, d: Measurement, t: nat)
    ensures Pending(id, d, t).isLoading && Unresolved(Pending(id, d, t))
    ensures Pending(id, d, t).id == id && Pending(id, d, t).userId == ""
    ensures Pending(id, d, t).abgData == d && Pending(id, d, t).timestamp == t
  {
    DefaultsAreBlank(d, t);
  }

  /** Completion keeps the pending record's identity and reading, fills in
      exactly the three texts and ends loading. */
  lemma CompletedKeepsIdentity(id: string, d: Measurement, t: nat, sections: Sections)
    ensures var c := Completed(Pending(id, d, t), sections);
            c.id == id && c.abgData == d && c.timestamp == t && c.userId == "" &&
            !c.isLoading && c.error == None &&
            c.interpretation == sections.interpretation &&
            c.suggestedConditions == sections.conditions &&
            c.treatmentRecommendations == sections.treatment
  {
    PendingIsBlank(id, d, t);
  }

  // ---------------------------------------------------------------------
  // History lists

  /** `history.find { it.id == id }`: the first record with that id. */
  function FindById(h: seq<Analysis>, id: string): (r: Option<Analysis>)
    ensures r.Some? ==> r.value in h && r.value.id == id
    ensures r.None? <==> forall k :: 0 <= k < |h| ==> h[k].id != id
  {
    if h == [] then None
    else if h[0].id == id then Some(h[0])
    else FindById(h[1..], id)
  }

  /** `history.filter { it.id != id }`. */
  function RemoveId(h: seq<Analysis>, id: string): (r: seq<Analysis>)
    ensures forall a :: a in r <==> a in h && a.id != id
    ensures |r| <= |h|
  {
    if h == [] then []
    else if h[0].id == id then RemoveId(h[1..], id)
    else [h[0]] + RemoveId(h[1..], id)
  }

  /** No two records share an id. Fresh ids make this so; the view model
      itself never checks it. */
  predicate UniqueIds(h: seq<Analysis>) {
    forall i, j :: 0 <= i < j < |h| ==> h[i].id != h[j].id
  }

  /** Every record in the list has finished loading. */
  predicate Settled(h: seq<Analysis>) {
    forall k :: 0 <= k < |h| ==> !h[k].isLoading
  }

  /** `find` returns the first record with the id, not any later one. */
  lemma {:induction false} FindByIdIsFirst(h: seq<Analysis>, id: string, k: nat)
    requires k < |h| && h[k].id == id
    requires forall j :: 0 <= j < k ==> h[j].id != id
    ensures FindById(h, id) == Some(h[k])
  {
    if k > 0 {
      FindByIdIsFirst(h[1..], id, k - 1);
    }
  }

  /** Filtering a concatenation filters each part and keeps their order. */
  lemma {:induction false} RemoveIdKeepsOrder(h1: seq<Analysis>, h2: seq<Analysis>, id: string)
    ensures RemoveId(h1 + h2, id) == RemoveId(h1, id) + RemoveId(h2, id)
    decreases |h1|
  {
    if h1 == [] {
      assert h1 + h2 == h2;
    } else {
      assert (h1 + h2)[0] == h1[0];
      assert (h1 + h2)[1..] == h1[1..] + h2;
      RemoveIdKeepsOrder(h1[1..], h2, id);
    }
  }

  /** Deleting an id that no record has leaves the list as it was. */
  lemma {:induction false} RemoveAbsentId(h: seq<Analysis>, id: string)
    requires forall k :: 0 <= k < |h| ==> h[k].id != id
    ensures RemoveId(h, id) == h
  {
    if h != [] {
      RemoveAbsentId(h[1..], id);
    }
  }

  /** With unique ids, deleting an id that is present removes exactly one record. */
  lemma {:induction false} RemovePresentUniqueId(h: seq<Analysis>, id: string, k: nat)
    requires UniqueIds(h) && k < |h| && h[k].id == id
    ensures |RemoveId(h, id)| == |h| - 1
  {
    if k == 0 {
      RemoveAbsentId(h[1..], id);
    } else {
      assert h[0].id != id;
      assert UniqueIds(h[1..]) by {
        forall i, j | 0 <= i < j < |h| - 1 ensures h[1..][i].id != h[1..][j].id {
          assert h[1..][i] == h[i + 1] && h[1..][j] == h[j + 1];
        }
      }
      RemovePresentUniqueId(h[1..], id, k - 1);
    }
  }

  /** After a delete, looking up the deleted id finds nothing and looking up
      any other id finds what it found before. */
  lemma {:induction false} FindAfterRemove(h: seq<Analysis>, id: string, other: string)
    ensures FindById(RemoveId(h, id), other) == if other == id then None else FindById(h, other)
  {
    if h != [] && other != id {
      FindAfterRemove(h[1..], id, other);
    }
  }

  /** Deleting the id of a record just put at the head of a history that did
      not have that id gives back the old history. */
  lemma DeleteUndoesPrepend(c: Analysis, h: seq<Analysis>)
    requires forall k :: 0 <= k < |h| ==> h[k].id != c.id
    ensures RemoveId([c] + h, c.id) == h
  {
    assert ([c] + h)[1..] == h;
    RemoveAbsentId(h, c.id);
  }

  /** Prepending a record with a fresh id keeps the ids unique. */
  lemma PrependFreshKeepsUnique(c: Analysis, h: seq<Analysis>)
    requires UniqueIds(h) && forall k :: 0 <= k < |h| ==> h[k].id != c.id
    ensures UniqueIds([c] + h)
  {
    var h' := [c] + h;
    forall i, j | 0 <= i < j < |h'| ensures h'[i].id != h'[j].id {
      assert h'[j] == h[j - 1];
      if i > 0 {
        assert h'[i] == h[i - 1];
      }
    }
  }

  /** Deleting keeps the ids unique. */
  lemma {:induction false} RemoveIdKeepsUnique(h: seq<Analysis>, id: string)
    requires UniqueIds(h)
    ensures UniqueIds(RemoveId(h, id))
  {
    if h != [] {
      var t := h[1..];
      assert UniqueIds(t) by {
        forall i, j | 0 <= i < j < |t| ensures t[i].id != t[j].id {
          assert t[i] == h[i + 1] && t[j] == h[j + 1];
        }
      }
      RemoveIdKeepsUnique(t, id);
      if h[0].id != id {
        var r := RemoveId(t, id);
        forall k | 0 <= k < |r| ensures r[k].id != h[0].id {
          assert r[k] in r;
          var m :| 0 <= m < |t| && t[m] == r[k];
          assert t[m] == h[m + 1];
        }
        PrependFreshKeepsUnique(h[0], r);
      }
    }
  }

  lemma RemoveIdKeepsSettled(h: seq<Analysis>, id: string)
    requires Settled(h)
    ensures Settled(RemoveId(h, id))
  {
    var r := RemoveId(h, id);
    forall k | 0 <= k < |r| ensures !r[k].isLoading {
      assert r[k] in h;
    }
  }

  // ---------------------------------------------------------------------
  // The view model

  class AbgViewModel {
    /** `_currentAnalysis` */
    var current: Option<Analysis>
    /** `_analysisHistory`, most recent first */
    var history: seq<Analysis>
    /** `_isLoading` */
    var isLoading: bool
    /** `_error` */
    var error: Option<string>

    /** The history only ever holds finished analyses. */
    predicate Valid()
      reads this
    {
      Settled(history)
    }

    constructor()
      ensures current == None && history == [] && !isLoading && error == None
      ensures Valid()
    {
      current := None;
      history := [];
      isLoading := false;
      error := None;
    }

    /** `analyzeAbg` up to the model call. An invalid reading only sets the
        error. A valid one clears the error, raises the loading flag and puts
        up a pending record, which is returned for the completion step. No
        check is made that another analysis is already in flight. */
    method AnalyzeAbg(data: Measurement, freshId: string, now: nat) returns (launched: Option<Analysis>)
      requires Valid()
      modifies this
      ensures Valid()
      ensures !IsValid(data) ==>
                launched == None && error == Some(InvalidInputMessage) &&
                current == old(current) && history == old(history) && isLoading == old(isLoading)
      ensures IsValid(data) ==>
                launched == Some(Pending(freshId, data, now)) && current == launched &&
                isLoading && error == None && history == old(history)
    {
      if !IsValid(data) {
        error := Some(InvalidInputMessage);
        return None;
      }
      isLoading := true;
      error := None;
      var analysis := Pending(freshId, data, now);
      current := Some(analysis);
      launched := Some(analysis);
    }

    /** The model call returned three sections: the completed record becomes
        current, whatever current is by now, and goes to the head of the
        history; the `finally` block lowers the loading flag. */
    method Complete(pending: Analysis, sections: Sections)
      requires Valid()
      modifies this
      ensures Valid()
      ensures current == Some(Completed(pending, sections))
      ensures history == [Completed(pending, sections)] + old(history)
      ensures |history| == |old(history)| + 1 && history[1..] == old(history)
      ensures !isLoading && error == old(error)
    {
      var completed := Completed(pending, sections);
      current := Some(completed);
      history := [completed] + history;
      isLoading := false;
      assert history[1..] == old(history);
    }

    /** The model call threw: the error becomes the message, or a generic
        text when it is null; a non-null current record is copied with the
        message and `isLoading = false`; the history is untouched. */
    method Fail(message: Option<string>)
      requires Valid()
      modifies this
      ensures Valid()
      ensures error == Some(message.GetOr(GenericFailureMessage))
      ensures old(current).None? ==> current == None
      ensures old(current).Some? ==> current == Some(Failed(old(current).value, message))
      ensures history == old(history) && !isLoading
    {
      error := Some(message.GetOr(GenericFailureMessage));
      if current.Some? {
        current := Some(Failed(current.value, message));
      }
      isLoading := false;
    }

    /** The rest of the coroutine for a given reply: `performFullAnalysis`
        either yields sections, which complete the analysis, or throws an
        exception whose (non-null) message is the failure text. */
    method Resolve(pending: Analysis, reply: ModelReply)
      requires Valid()
      modifies this
      ensures Valid()
      ensures !isLoading
      ensures reply.Returned? && reply.text.Some? ==>
                current == Some(Completed(pending, ParseFullAnalysis(reply.text.value))) &&
                history == [current.value] + old(history) && error == old(error)
      ensures !(reply.Returned? && reply.text.Some?) ==>
                history == old(history) &&
                error == Some(PerformFullAnalysis(reply).error) &&
                StartsAt(error.value, 0, FailurePrefix) &&
                (old(current).Some? ==> current == Some(Failed(old(current).value, error))) &&
                (old(current).None? ==> current == None)
    {
      var r := PerformFullAnalysis(reply);
      match r
      case Success(sections) => Complete(pending, sections);
      case Failure(message) => Fail(Some(message));
    }

    /** `clearCurrentAnalysis`: no current record and no error. */
    method ClearCurrentAnalysis()
      requires Valid()
      modifies this
      ensures Valid()
      ensures current == None && error == None
      ensures history == old(history) && isLoading == old(isLoading)
    {
      current := None;
      error := None;
    }

    /** `clearError`: only the error goes. */
    method ClearError()
      requires Valid()
      modifies this
      ensures Valid()
      ensures error == None
      ensures current == old(current) && history == old(history) && isLoading == old(isLoading)
    {
      error := None;
    }

    /** `loadAnalysis`: current becomes the first history record with the id,
        or null when there is none. */
    method LoadAnalysis(id: string)
      requires Valid()
      modifies this
      ensures Valid()
      ensures current == FindById(history, id)
      ensures current.Some? ==> current.value in history && current.value.id == id && !current.value.isLoading
      ensures current.None? <==> forall k :: 0 <= k < |history| ==> history[k].id != id
      ensures history == old(history) && isLoading == old(isLoading) && error == old(error)
    {
      current := FindById(history, id);
    }

    /** `deleteAnalysis`: every record with the id leaves the history, the
        others keep their order; the current record goes too if it has the id. */
    method DeleteAnalysis(id: string)
      requires Valid()
      modifies this
      ensures Valid()
      ensures history == RemoveId(old(history), id)
      ensures forall a :: a in history <==> a in old(history) && a.id != id
      ensures old(current).Some? && old(current).value.id == id ==> current == None
      ensures !(old(current).Some? && old(current).value.id == id) ==> current == old(current)
      ensures isLoading == old(isLoading) && error == old(error)
    {
      RemoveIdKeepsSettled(history, id);
      history := RemoveId(history, id);
      if current.Some? && current.value.id == id {
        current := None;
      }
    }

    /** `clearHistory`: an empty history and nothing else changed. */
    method ClearHistory()
      requires Valid()
      modifies this
      ensures Valid()
      ensures history == []
      ensures current == old(current) && isLoading == old(isLoading) && error == old(error)
    {
      history := [];
    }
  }
}
