/**
 * The session with the CAD host and the part-list traversal
 * (src/InventorManager.py).
 *
 * The session state is three fields: `app` (the application, None once
 * disconnected or when connecting failed), `doc` and `assembly_doc` (the
 * last document opened and its typed view; None while never assigned).
 * The traversal walks an occurrence tree depth first, selects the document
 * of every part occurrence, builds a Part from whatever view is then
 * selected, and appends it to one shared list.
 */
module Manager {
  import opened Host
  import opened Parts

  datatype Session = Session(app: Option<HostApp>, doc: Option<Doc>, assemblyDoc: Option<View>)

  datatype Selection = Selection(ok: bool, state: Session)

  /**
   * select_document: an empty name first goes through the file dialog; a
   * name that is still empty fails, and so does a name the host cannot
   * open. Failures leave the session as it was.
   */
  function Select(s: Session, filename: string, pick: string): (r: Selection)
    ensures r.ok <==> DialogOr(filename, pick) != "" && Open(s.app, DialogOr(filename, pick)).Some?
    ensures !r.ok ==> r.state == s
    ensures r.ok ==>
      && r.state.app == s.app
      && r.state.doc == Open(s.app, DialogOr(filename, pick))
      && r.state.assemblyDoc.Some?
      && r.state.assemblyDoc.value.doc == r.state.doc.value
      && (r.state.assemblyDoc.value.AssemblyView? <==> r.state.doc.value.docType == AssemblyDocumentType)
  {
    var name := DialogOr(filename, pick);
    if name == "" then Selection(false, s)
    else
      match Open(s.app, name)
      case None => Selection(false, s)
      case Some(d) => Selection(true, s.(doc := Some(d), assemblyDoc := Some(ViewOf(d))))
  }

  /**
   * get_property: the value of `propName` in the set `setName` of the
   * selected view, or None when there is no view, no such set or no such
   * property.
   */
  function PropertyOf(view: Option<View>, setName: string, propName: string): (r: Option<Value>)
    ensures r.Some? <==>
      view.Some? && setName in view.value.doc.propertySets && propName in view.value.doc.propertySets[setName]
    ensures r.Some? ==> r.value == view.value.doc.propertySets[setName][propName]
  {
    if view.None? then None
    else
      var sets := view.value.doc.propertySets;
      if setName !in sets then None
      else if propName !in sets[setName] then None
      else Some(sets[setName][propName])
  }

  /**
   * What get_part_details does to a part's fields: identity and mass are
   * re-read as properties of the selected view; filename and the six
   * centre-of-mass fields stay.
   */
  function WithDetails(p: PartData, view: Option<View>): (q: PartData)
    ensures q.filename == p.filename && q.axes == p.axes
    ensures q.partNumber == PropertyOf(view, DesignTracking, PartNumberProperty)
    ensures q.partName == PropertyOf(view, DesignTracking, DescriptionProperty)
    ensures q.mass == PropertyOf(view, DesignTracking, MassProperty)
    ensures q.mass.Some? <==>
      view.Some? && DesignTracking in view.value.doc.propertySets
      && MassProperty in view.value.doc.propertySets[DesignTracking]
  {
    p.(partNumber := PropertyOf(view, DesignTracking, PartNumberProperty),
       partName := PropertyOf(view, DesignTracking, DescriptionProperty),
       mass := PropertyOf(view, DesignTracking, MassProperty))
  }

  /**
   * get_part_details can leave centre-of-mass fields without a mass: the
   * "axes only with a mass" invariant of a freshly built part is not kept.
   */
  lemma DetailsCanOrphanAxes(d: Doc)
    requires IdentityReadable(d) && d.mass.Some? && d.centerOfMass.Some?
    requires MassProperty !in d.propertySets[DesignTracking]
    ensures var p := Build(Some(ViewOf(d))).value;
            var q := WithDetails(p, Some(ViewOf(d)));
            p.axes.x.Some? && q.mass.None? && q.axes.x.Some?
  {
  }

  /** The root occurrences get_parts_list reads; only an assembly view has them. */
  function RootOccurrences(view: Option<View>): (r: Option<seq<Occ>>)
    ensures r.Some? <==> view.Some? && view.value.AssemblyView?
    ensures r.Some? ==> r.value == view.value.doc.occurrences
  {
    match view
    case Some(AssemblyView(d)) => Some(d.occurrences)
    case _ => None
  }

  // ---------------------------------------------------------------------
  // The traversal as a function of the session

  /**
   * The records a traversal appended, the session afterwards, and whether
   * it ran to the end (false: a Part construction raised and aborted it).
   */
  datatype Outcome = Outcome(parts: seq<PartData>, state: Session, ok: bool)

  /**
   * One part occurrence: select its document (the result is ignored), then
   * build a Part from whatever view is selected afterwards.
   */
  function Step(st: Session, o: Occ, pick: string): (r: Outcome)
    ensures r.state == Select(st, o.fullName, pick).state
    ensures r.ok <==> Build(r.state.assemblyDoc).Some?
    ensures r.parts == if r.ok then [Build(r.state.assemblyDoc).value] else []
    // a failed open builds the part from the previously selected view
    ensures !Select(st, o.fullName, pick).ok ==> r.state == st && (r.ok ==> r.parts == [Build(st.assemblyDoc).value])
  {
    var sel := Select(st, o.fullName, pick).state;
    match Build(sel.assemblyDoc)
    case None => Outcome([], sel, false)
    case Some(p) => Outcome([p], sel, true)
  }

  /** get_part_occurrences applied to one occurrence. */
  function Visit(st: Session, o: Occ, pick: string): Outcome
    decreases o
  {
    if o.docType == PartDocumentType then Step(st, o, pick)
    else if o.docType == AssemblyDocumentType then Walk(st, o.subs, pick)
    else Outcome([], st, true)
  }

  /** get_part_occurrences over a collection, in iteration order; stops at the first raise. */
  function Walk(st: Session, occs: seq<Occ>, pick: string): Outcome
    decreases occs
  {
    if occs == [] then Outcome([], st, true)
    else
      var before := Walk(st, occs[..|occs| - 1], pick);
      if !before.ok then before
      else
        var v := Visit(before.state, occs[|occs| - 1], pick);
        Outcome(before.parts + v.parts, v.state, v.ok)
  }

  // ---------------------------------------------------------------------
  // Part leaves: the occurrences the traversal builds parts for

  /** The part occurrences under one occurrence, depth first. */
  function Leaves(o: Occ): seq<Occ>
    decreases o
  {
    if o.docType == PartDocumentType then [o]
    else if o.docType == AssemblyDocumentType then PartLeaves(o.subs)
    else []
  }

  /** The part occurrences of a collection, depth first, pre-order, with repeats. */
  function PartLeaves(occs: seq<Occ>): seq<Occ>
    decreases occs
  {
    if occs == [] then []
    else PartLeaves(occs[..|occs| - 1]) + Leaves(occs[|occs| - 1])
  }

  /**
   * An occurrence the traversal can reach: one of the collection, or one
   * reachable inside an assembly occurrence of it.
   */
  ghost predicate Reachable(o: Occ, occs: seq<Occ>)
    decreases occs
  {
    exists i :: 0 <= i < |occs| &&
      (occs[i] == o || (occs[i].docType == AssemblyDocumentType && Reachable(o, occs[i].subs)))
  }

  /** The leaves of a concatenation are the concatenated leaves. */
  lemma {:induction false} PartLeavesAppend(a: seq<Occ>, b: seq<Occ>)
    ensures PartLeaves(a + b) == PartLeaves(a) + PartLeaves(b)
    decreases |b|
  {
    if b == [] {
      assert a + b == a;
    } else {
      var b' := b[..|b| - 1];
      assert (a + b)[..|a + b| - 1] == a + b';
      assert (a + b)[|a + b| - 1] == b[|b| - 1];
      PartLeavesAppend(a, b');
    }
  }

  /** A sub-assembly's parts are spliced, flattened, at its own position. */
  lemma SubAssemblySpliced(a: seq<Occ>, asm: Occ, b: seq<Occ>)
    requires asm.docType == AssemblyDocumentType
    ensures PartLeaves(a + [asm] + b) == PartLeaves(a) + PartLeaves(asm.subs) + PartLeaves(b)
  {
    PartLeavesAppend(a + [asm], b);
    PartLeavesAppend(a, [asm]);
    assert [asm][..0] == [];
  }

  /** An occurrence of any other document type contributes nothing, and nothing below it. */
  lemma OtherTypesIgnored(a: seq<Occ>, o: Occ, b: seq<Occ>)
    requires o.docType != PartDocumentType && o.docType != AssemblyDocumentType
    ensures PartLeaves(a + [o] + b) == PartLeaves(a + b)
  {
    PartLeavesAppend(a + [o], b);
    PartLeavesAppend(a, [o]);
    PartLeavesAppend(a, b);
    assert [o][..0] == [];
  }

  /** No deduplication: a part placed n times yields n entries. */
  lemma {:induction false} RepeatedPlacement(o: Occ, n: nat)
    requires o.docType == PartDocumentType
    ensures PartLeaves(seq(n, _ => o)) == seq(n, _ => o)
  {
    if n > 0 {
      var s := seq(n, _ => o);
      assert s[..n - 1] == seq(n - 1, _ => o);
      RepeatedPlacement(o, n - 1);
    }
  }

  /** Every leaf is a part occurrence reachable through assemblies, and every such occurrence is a leaf. */
  lemma {:induction false} LeavesAreReachableParts(o: Occ, occs: seq<Occ>)
    ensures o in PartLeaves(occs) <==> o.docType == PartDocumentType && Reachable(o, occs)
    decreases occs
  {
    if occs != [] {
      var pre, last := occs[..|occs| - 1], occs[|occs| - 1];
      assert occs == pre + [last];
      LeavesAreReachableParts(o, pre);
      ReachableSplit(o, pre, last);
      assert PartLeaves(occs) == PartLeaves(pre) + Leaves(last);
      if last.docType == PartDocumentType {
        assert Leaves(last) == [last];
      } else if last.docType == AssemblyDocumentType {
        LeavesAreReachableParts(o, last.subs);
        assert Leaves(last) == PartLeaves(last.subs);
      } else {
        assert Leaves(last) == [];
      }
    }
  }

  /** Reachability in a collection with one more occurrence at its end. */
  lemma ReachableSplit(o: Occ, pre: seq<Occ>, last: Occ)
    ensures Reachable(o, pre + [last]) <==>
      Reachable(o, pre) || last == o || (last.docType == AssemblyDocumentType && Reachable(o, last.subs))
  {
    var occs := pre + [last];
    if Reachable(o, occs) {
      var i :| 0 <= i < |occs| &&
        (occs[i] == o || (occs[i].docType == AssemblyDocumentType && Reachable(o, occs[i].subs)));
      if i < |pre| {
        assert occs[i] == pre[i];
      }
    }
    if Reachable(o, pre) {
      var i :| 0 <= i < |pre| &&
        (pre[i] == o || (pre[i].docType == AssemblyDocumentType && Reachable(o, pre[i].subs)));
      assert occs[i] == pre[i];
    }
    assert occs[|pre|] == last;
  }

  // ---------------------------------------------------------------------
  // The traversal is the flat walk over the part leaves

  /** Steps over a flat list of part occurrences, stopping at the first raise. */
  function FlatWalk(st: Session, leaves: seq<Occ>, pick: string): Outcome
    decreases |leaves|
  {
    if leaves == [] then Outcome([], st, true)
    else
      var before := FlatWalk(st, leaves[..|leaves| - 1], pick);
      if !before.ok then before
      else
        var s := Step(before.state, leaves[|leaves| - 1], pick);
        Outcome(before.parts + s.parts, s.state, s.ok)
  }

  /** Carries on with `rest` after `w`, unless `w` aborted. */
  function Then(w: Outcome, rest: seq<Occ>, pick: string): Outcome {
    if !w.ok then w
    else
      var w2 := FlatWalk(w.state, rest, pick);
      Outcome(w.parts + w2.parts, w2.state, w2.ok)
  }

  lemma {:induction false} FlatWalkAppend(st: Session, a: seq<Occ>, b: seq<Occ>, pick: string)
    ensures FlatWalk(st, a + b, pick) == Then(FlatWalk(st, a, pick), b, pick)
    decreases |b|
  {
    if b == [] {
      assert a + b == a;
    } else {
      var b' := b[..|b| - 1];
      assert (a + b)[..|a + b| - 1] == a + b';
      assert (a + b)[|a + b| - 1] == b[|b| - 1];
      FlatWalkAppend(st, a, b', pick);
      var w := FlatWalk(st, a, pick);
      if w.ok {
        var w2 := FlatWalk(w.state, b', pick);
        assert FlatWalk(st, a + b', pick) == Outcome(w.parts + w2.parts, w2.state, w2.ok);
        if w2.ok {
          var s := Step(w2.state, b[|b| - 1], pick);
          assert FlatWalk(w.state, b, pick) == Outcome(w2.parts + s.parts, s.state, s.ok);
          assert (w.parts + w2.parts) + s.parts == w.parts + (w2.parts + s.parts);
        }
      } else {
        assert FlatWalk(st, a + b', pick) == w;
      }
    }
  }

  /**
   * Pre-order: the traversal of a tree is exactly the flat walk over its
   * part leaves, in order.
   */
  lemma {:induction false} WalkIsFlatWalk(st: Session, occs: seq<Occ>, pick: string)
    ensures Walk(st, occs, pick) == FlatWalk(st, PartLeaves(occs), pick)
    decreases occs
  {
    if occs != [] {
      var pre, last := occs[..|occs| - 1], occs[|occs| - 1];
      WalkIsFlatWalk(st, pre, pick);
      var before := Walk(st, pre, pick);
      FlatWalkAppend(st, PartLeaves(pre), Leaves(last), pick);
      if before.ok {
        VisitIsFlatWalk(before.state, last, pick);
      }
    }
  }

  lemma {:induction false} VisitIsFlatWalk(st: Session, o: Occ, pick: string)
    ensures Visit(st, o, pick) == FlatWalk(st, Leaves(o), pick)
    decreases o
  {
    if o.docType == PartDocumentType {
      assert [o][..0] == [];
    } else if o.docType == AssemblyDocumentType {
      WalkIsFlatWalk(st, o.subs, pick);
    }
  }

  /**
   * Counting: a flat walk appends at most one record per leaf, and it runs
   * to the end exactly when it appends one for every leaf.
   */
  lemma {:induction false} FlatWalkCount(st: Session, leaves: seq<Occ>, pick: string)
    ensures |FlatWalk(st, leaves, pick).parts| <= |leaves|
    ensures FlatWalk(st, leaves, pick).ok <==> |FlatWalk(st, leaves, pick).parts| == |leaves|
    decreases |leaves|
  {
    if leaves != [] {
      FlatWalkCount(st, leaves[..|leaves| - 1], pick);
    }
  }

  /**
   * Position: record i comes from leaf i, built after selecting that
   * leaf's document in the session left by the walk over leaves 0..i-1.
   */
  lemma {:induction false} FlatWalkAt(st: Session, leaves: seq<Occ>, pick: string, i: nat)
    requires i < |FlatWalk(st, leaves, pick).parts|
    ensures i < |leaves|
    ensures var before := FlatWalk(st, leaves[..i], pick);
            var s := Step(before.state, leaves[i], pick);
            before.ok && s.ok && s.parts == [FlatWalk(st, leaves, pick).parts[i]]
    decreases |leaves|
  {
    var n := |leaves| - 1;
    var pre := leaves[..n];
    FlatWalkCount(st, pre, pick);
    var before := FlatWalk(st, pre, pick);
    if i < |before.parts| {
      FlatWalkAt(st, pre, pick, i);
      assert pre[..i] == leaves[..i];
    } else {
      assert i == n;
      assert pre == leaves[..i];
    }
  }

  /**
   * The traversal appends exactly one record per part leaf at any depth
   * when it runs to the end, and never more.
   */
  lemma WalkCount(st: Session, occs: seq<Occ>, pick: string)
    ensures |Walk(st, occs, pick).parts| <= |PartLeaves(occs)|
    ensures Walk(st, occs, pick).ok <==> |Walk(st, occs, pick).parts| == |PartLeaves(occs)|
  {
    WalkIsFlatWalk(st, occs, pick);
    FlatWalkCount(st, PartLeaves(occs), pick);
  }

  /** Once the traversal has aborted, later occurrences change nothing. */
  lemma {:induction false} WalkStopsAtFailure(st: Session, a: seq<Occ>, b: seq<Occ>, pick: string)
    requires !Walk(st, a, pick).ok
    ensures Walk(st, a + b, pick) == Walk(st, a, pick)
    decreases |b|
  {
    if b != [] {
      var b' := b[..|b| - 1];
      assert (a + b)[..|a + b| - 1] == a + b';
      WalkStopsAtFailure(st, a, b', pick);
    } else {
      assert a + b == a;
    }
  }

  /** One more occurrence of the collection, in the form the loop of get_part_occurrences takes it. */
  lemma WalkPrefixStep(st: Session, occs: seq<Occ>, i: nat, pick: string)
    requires i < |occs|
    ensures var before := Walk(st, occs[..i], pick);
      var v := Visit(before.state, occs[i], pick);
      before.ok ==> Walk(st, occs[..i + 1], pick) == Outcome(before.parts + v.parts, v.state, v.ok)
  {
    assert occs[..i + 1][..i] == occs[..i];
  }

  /** An abort at occurrence i is the outcome of the whole collection. */
  lemma WalkPrefixAbort(st: Session, occs: seq<Occ>, i: nat, pick: string)
    requires i < |occs|
    requires !Walk(st, occs[..i + 1], pick).ok
    ensures Walk(st, occs, pick) == Walk(st, occs[..i + 1], pick)
  {
    WalkStopsAtFailure(st, occs[..i + 1], occs[i + 1..], pick);
    assert occs[..i + 1] + occs[i + 1..] == occs;
  }

  // ---------------------------------------------------------------------
  // The objects

  /** The caller-owned Python list the traversal appends to. */
  class PartsList {
    var items: seq<Part>

    constructor ()
      ensures items == []
    {
      items := [];
    }

    method Append(p: Part)
      modifies this
      ensures items == old(items) + [p]
    {
      items := items + [p];
    }
  }

  /** The Part objects `ps` hold exactly the records `ds`, in order. */
  ghost predicate Describes(ps: seq<Part>, ds: seq<PartData>)
    reads ps
  {
    |ps| == |ds| && forall i :: 0 <= i < |ps| ==> ps[i].Data() == ds[i]
  }

  /**
   * `after` is `before` with Part objects for the records `ds` added at
   * its end: the incoming contents are an unchanged prefix.
   */
  ghost predicate Appended(before: seq<Part>, after: seq<Part>, ds: seq<PartData>)
    reads after
  {
    |before| <= |after| && after[..|before|] == before && Describes(after[|before|..], ds)
  }

  lemma AppendedTrans(a: seq<Part>, b: seq<Part>, c: seq<Part>, ds: seq<PartData>, es: seq<PartData>)
    requires Appended(a, b, ds) && Appended(b, c, es)
    ensures Appended(a, c, ds + es)
  {
    assert c[|a|..] == b[|a|..] + c[|b|..];
  }

  class InventorManager {
    var app: Option<HostApp>
    var doc: Option<Doc>
    var assemblyDoc: Option<View>

    function State(): Session
      reads this
    {
      Session(app, doc, assemblyDoc)
    }

    /** `host` is what connecting produced: None when Dispatch failed. */
    constructor (host: Option<HostApp>)
      ensures State() == Session(host, None, None)
    {
      app, doc, assemblyDoc := host, None, None;
    }

    /** Quits the application when there is one; a no-op otherwise. */
    method Disconnect()
      modifies this
      ensures State() == old(State()).(app := None)
      ensures old(app).None? ==> State() == old(State())
    {
      if app.Some? {
        app := None;
      }
    }

    method SelectDocument(filename: string, pick: string) returns (ok: bool)
      modifies this
      ensures var r := Select(old(State()), filename, pick); ok == r.ok && State() == r.state
    {
      var name := DialogOr(filename, pick);
      if name == "" {
        return false;
      }
      var found := Open(app, name);
      if found.None? {
        return false;
      }
      doc := found;
      assemblyDoc := Some(ViewOf(found.value));
      return true;
    }

    function GetProperty(setName: string, propName: string): Option<Value>
      reads this
    {
      PropertyOf(assemblyDoc, setName, propName)
    }

    method GetPartDetails(part: Part, pick: string)
      modifies this, part
      ensures State() == Select(old(State()), old(part.filename), pick).state
      ensures part.Data() == WithDetails(old(part.Data()), assemblyDoc)
    {
      var _ := SelectDocument(part.filename, pick);
      part.partNumber := GetProperty(DesignTracking, PartNumberProperty);
      part.partName := GetProperty(DesignTracking, DescriptionProperty);
      part.mass := GetProperty(DesignTracking, MassProperty);
      part.mass := GetProperty(DesignTracking, MassProperty);
    }

    /**
     * get_part_occurrences: appends one fresh Part per part occurrence,
     * depth first, to `partsList`; returns false where the source raises.
     */
    method GetPartOccurrences(occs: seq<Occ>, partsList: PartsList, pick: string) returns (ok: bool)
      modifies this, partsList
      decreases occs
      ensures var w := Walk(old(State()), occs, pick);
        && ok == w.ok && State() == w.state
        && Appended(old(partsList.items), partsList.items, w.parts)
      ensures forall j :: |old(partsList.items)| <= j < |partsList.items| ==> fresh(partsList.items[j])
    {
      ghost var st0 := State();
      ghost var items0 := partsList.items;
      var i := 0;
      assert items0[|items0|..] == [];
      while i < |occs|
        invariant 0 <= i <= |occs|
        invariant Walk(st0, occs[..i], pick).ok
        invariant State() == Walk(st0, occs[..i], pick).state
        invariant Appended(items0, partsList.items, Walk(st0, occs[..i], pick).parts)
        invariant forall j :: |items0| <= j < |partsList.items| ==> fresh(partsList.items[j])
      {
        ghost var before := Walk(st0, occs[..i], pick);
        ghost var items1 := partsList.items;
        WalkPrefixStep(st0, occs, i, pick);
        ok := VisitOccurrence(occs[i], partsList, pick);
        AppendedTrans(items0, items1, partsList.items, before.parts, Visit(before.state, occs[i], pick).parts);
        forall j | |items0| <= j < |partsList.items|
          ensures fresh(partsList.items[j])
        {
          if j < |items1| {
            assert partsList.items[j] == items1[j];
          }
        }
        if !ok {
          WalkPrefixAbort(st0, occs, i, pick);
          return false;
        }
        i := i + 1;
      }
      assert occs[..i] == occs;
      return true;
    }

    /** The body of get_part_occurrences' loop for one occurrence. */
    method VisitOccurrence(occ: Occ, partsList: PartsList, pick: string) returns (ok: bool)
      modifies this, partsList
      decreases occ
      ensures var v := Visit(old(State()), occ, pick);
        && ok == v.ok && State() == v.state
        && Appended(old(partsList.items), partsList.items, v.parts)
      ensures forall j :: |old(partsList.items)| <= j < |partsList.items| ==> fresh(partsList.items[j])
    {
      assert partsList.items[|partsList.items|..] == [];
      if occ.docType == PartDocumentType {
        var _ := SelectDocument(occ.fullName, pick);
        var part := NewPart(assemblyDoc);
        if part == null {
          return false;
        }
        partsList.Append(part);
        assert partsList.items[|old(partsList.items)|..] == [part];
        ok := true;
      } else if occ.docType == AssemblyDocumentType {
        ok := GetPartOccurrences(occ.subs, partsList, pick);
      } else {
        ok := true;
      }
    }

    /**
     * get_parts_list: selects `document` (the dialog when it is empty,
     * ignoring failure), then traverses the root occurrences of the selected
     * assembly into a new, empty list. Without an assembly view the source
     * raises: ok is false.
     */
    method GetPartsList(document: string, pick: string) returns (ok: bool, parts: seq<Part>)
      modifies this
      ensures var sel := Select(old(State()), document, pick).state;
        match RootOccurrences(sel.assemblyDoc)
        case None => !ok && parts == [] && State() == sel
        case Some(roots) =>
          var w := Walk(sel, roots, pick);
          ok == w.ok && State() == w.state && Describes(parts, w.parts)
      ensures forall j :: 0 <= j < |parts| ==> fresh(parts[j])
    {
      var _ := SelectDocument(document, pick);
      var roots := RootOccurrences(assemblyDoc);
      if roots.None? {
        return false, [];
      }
      var allParts := new PartsList();
      ok := GetPartOccurrences(roots.value, allParts, pick);
      parts := allParts.items;
    }
  }
}
