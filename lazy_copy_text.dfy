/**
 * The IntersectionObserver callback of setCopyText (code-copy-filter.js):
 * for each entry whose button is in view and has no `clipboardText` data
 * attribute yet, the attribute is set to the cleaned text of the button's
 * `clipboardTarget`. A button is identified with its value; `dataset` maps the
 * buttons whose attribute is set to its value.
 */
module LazyCopyText {
  import opened CodeCopyFilter

  /** A copy button of a code block, with its `data-clipboard-target` selector. */
  datatype CopyTrigger = CopyTrigger(id: nat, clipboardTarget: string)

  /** An IntersectionObserverEntry: the observed button and how much of it is visible. */
  datatype Entry = Entry(target: CopyTrigger, intersectionRatio: real)

  /**
   * The test of the callback: in view and not yet patched. A button whose
   * attribute is set, even to the empty string, and a button out of view
   * both fail it.
   */
  predicate ShouldSet(dataset: map<CopyTrigger, string>, e: Entry)
    ensures e.target in dataset ==> !ShouldSet(dataset, e)
    ensures e.intersectionRatio <= 0.0 ==> !ShouldSet(dataset, e)
  {
    e.intersectionRatio > 0.0 && e.target !in dataset
  }

  predicate VisibleIn(b: CopyTrigger, entries: seq<Entry>) {
    exists i :: 0 <= i < |entries| && entries[i].target == b && entries[i].intersectionRatio > 0.0
  }

  /** The attributes after the callback has handled one entry. */
  function ApplyEntry(doc: Document, dataset: map<CopyTrigger, string>, e: Entry): (r: map<CopyTrigger, string>)
    ensures r.Keys == dataset.Keys + (if e.intersectionRatio > 0.0 then {e.target} else {})
    ensures forall b :: b in dataset ==> r[b] == dataset[b]
    ensures e.target in r && e.target !in dataset ==> r[e.target] == CleanupClipboardText(doc, e.target.clipboardTarget)
  {
    if ShouldSet(dataset, e) then dataset[e.target := CleanupClipboardText(doc, e.target.clipboardTarget)]
    else dataset
  }

  /**
   * The attributes after the callback has handled a batch of entries, in
   * order. A set attribute, even an empty one, is never overwritten; a new one
   * belongs to a button visible in the batch and holds its cleaned text; every
   * visible button ends with its attribute set.
   */
  function ApplyEntries(doc: Document, dataset: map<CopyTrigger, string>, entries: seq<Entry>): (r: map<CopyTrigger, string>)
    ensures forall b :: b in dataset ==> b in r && r[b] == dataset[b]
    ensures forall b :: b in r && b !in dataset ==> VisibleIn(b, entries) && r[b] == CleanupClipboardText(doc, b.clipboardTarget)
    ensures forall i :: 0 <= i < |entries| && entries[i].intersectionRatio > 0.0 ==> entries[i].target in r
    decreases |entries|
  {
    if entries == [] then dataset
    else
      var r := ApplyEntries(doc, ApplyEntry(doc, dataset, entries[0]), entries[1..]);
      assert forall b :: VisibleIn(b, entries[1..]) ==> VisibleIn(b, entries) by {
        forall b | VisibleIn(b, entries[1..]) ensures VisibleIn(b, entries) {
          var i :| 0 <= i < |entries[1..]| && entries[1..][i].target == b && entries[1..][i].intersectionRatio > 0.0;
          assert entries[i + 1] == entries[1..][i];
        }
      }
      assert forall i :: 1 <= i < |entries| ==> entries[i] == entries[1..][i - 1];
      r
  }

  /**
   * The buttons whose text the callback computes, in order, given the buttons
   * already patched.
   */
  function Computed(patched: set<CopyTrigger>, entries: seq<Entry>): seq<CopyTrigger>
    decreases |entries|
  {
    if entries == [] then []
    else if entries[0].intersectionRatio > 0.0 && entries[0].target !in patched then
      [entries[0].target] + Computed(patched + {entries[0].target}, entries[1..])
    else Computed(patched, entries[1..])
  }

  /** The text of each button is computed at most once: never for a patched button, never twice in a batch. */
  lemma {:induction false} ComputedAtMostOnce(patched: set<CopyTrigger>, entries: seq<Entry>)
    ensures forall i :: 0 <= i < |Computed(patched, entries)| ==> Computed(patched, entries)[i] !in patched
    ensures forall i, j :: 0 <= i < j < |Computed(patched, entries)| ==> Computed(patched, entries)[i] != Computed(patched, entries)[j]
    decreases |entries|
  {
    if entries != [] {
      var e := entries[0];
      if e.intersectionRatio > 0.0 && e.target !in patched {
        ComputedAtMostOnce(patched + {e.target}, entries[1..]);
        var rest := Computed(patched + {e.target}, entries[1..]);
        assert Computed(patched, entries) == [e.target] + rest;
      } else {
        ComputedAtMostOnce(patched, entries[1..]);
      }
    }
  }

  /** The attributes that appear in a batch are exactly those of the computed buttons. */
  lemma {:induction false} NewAttributesAreComputed(doc: Document, dataset: map<CopyTrigger, string>, entries: seq<Entry>)
    ensures ApplyEntries(doc, dataset, entries).Keys == dataset.Keys + set b | b in Computed(dataset.Keys, entries)
    decreases |entries|
  {
    if entries != [] {
      var e := entries[0];
      var next := ApplyEntry(doc, dataset, e);
      NewAttributesAreComputed(doc, next, entries[1..]);
      if ShouldSet(dataset, e) {
        assert next.Keys == dataset.Keys + {e.target};
        assert Computed(dataset.Keys, entries) == [e.target] + Computed(next.Keys, entries[1..]);
      } else {
        assert next == dataset;
      }
    }
  }

  /** The attributes after several callback runs, one batch each. */
  function ApplyBatches(doc: Document, dataset: map<CopyTrigger, string>, batches: seq<seq<Entry>>): map<CopyTrigger, string>
    decreases |batches|
  {
    if batches == [] then dataset
    else ApplyBatches(doc, ApplyEntries(doc, dataset, batches[0]), batches[1..])
  }

  /** However often visibility toggles, a set attribute keeps its first value. */
  lemma {:induction false} SetOnceAcrossBatches(doc: Document, dataset: map<CopyTrigger, string>, batches: seq<seq<Entry>>, b: CopyTrigger)
    requires b in dataset
    ensures b in ApplyBatches(doc, dataset, batches) && ApplyBatches(doc, dataset, batches)[b] == dataset[b]
    decreases |batches|
  {
    if batches != [] {
      SetOnceAcrossBatches(doc, ApplyEntries(doc, dataset, batches[0]), batches[1..], b);
    }
  }

  /** The data attributes of the observed buttons, written in place by the callback. */
  class CopyTextAttributes {
    var dataset: map<CopyTrigger, string>

    constructor ()
      ensures dataset == map[]
    {
      dataset := map[];
    }

    /** The IntersectionObserver callback: `entries.forEach(...)`. */
    method OnIntersection(doc: Document, entries: seq<Entry>)
      modifies this
      ensures dataset == ApplyEntries(doc, old(dataset), entries)
    {
      var i := 0;
      while i < |entries|
        invariant 0 <= i <= |entries|
        invariant ApplyEntries(doc, dataset, entries[i..]) == ApplyEntries(doc, old(dataset), entries)
      {
        var entry := entries[i];
        assert entries[i..][1..] == entries[i + 1..];
        if entry.intersectionRatio > 0.0 && entry.target !in dataset {
          dataset := dataset[entry.target := CleanupClipboardText(doc, entry.target.clipboardTarget)];
        }
        i := i + 1;
      }
    }
  }
}
