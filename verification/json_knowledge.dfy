/** The edge-table companion knowledge (`JsonCompanionKnowledge`), built from
    a sequence of raw edges instead of a file. It serves both the planning
    oracle (candidates, forbidden pair, score) and the crops registry
    (helpful / forbidden queries on crop names).

    The JavaScript maps of sets are kept as two insertion-ordered,
    duplicate-free sequences of links: the `helps` links (from which both
    `helpsFrom` and `helpsTo` are read off in their iteration order) and the
    `avoid` links. An avoid link is stored in the source under the string key
    `from>>to`; `AvoidKeyInjective` shows that this key identifies the pair,
    which is why a pair can stand for it. */
module JsonKnowledge {
  import opened Results
  import opened Seqs
  import opened Strings
  import opened PlantIds
  import opened CropNames
  import opened Knowledge

  /** The edge types of the file; `Unknown` stands for any other string a
      malformed file may hold there. */
  datatype EdgeKind = Helps | HelpedBy | Avoid | Unknown

  /** One entry of the edge file. */
  datatype RawEdge = RawEdge(from: string, to: string, kind: EdgeKind)

  /** A recorded ordered pair of normalised ids. */
  datatype Link = Link(from: string, to: string)

  datatype Tables = Tables(helps: seq<Link>, avoids: seq<Link>)

  /** The two ids of an edge, when both are valid plant ids (the source's
      `safeCreatePlantId`, which turns a thrown error into null). */
  function Resolve(e: RawEdge): (r: Option<Link>)
    ensures r.Some? <==> PlantIds.Create(e.from).Ok? && PlantIds.Create(e.to).Ok?
  {
    var from := PlantIds.Create(e.from);
    var to := PlantIds.Create(e.to);
    if from.Ok? && to.Ok? then Some(Link(from.value.value, to.value.value)) else None
  }

  /** Both sides of a link are valid plant id values. */
  ghost predicate ValidLink(l: Link) {
    PlantIds.Valid(PlantId(l.from)) && PlantIds.Valid(PlantId(l.to))
  }

  lemma ResolveValid(e: RawEdge)
    ensures Resolve(e).Some? ==> ValidLink(Resolve(e).value)
  {
  }

  /** An edge after its ids have been resolved. */
  datatype Entry = Entry(kind: EdgeKind, ids: Option<Link>)

  function Resolved(edges: seq<RawEdge>): (r: seq<Entry>)
    ensures |r| == |edges|
    ensures forall k :: 0 <= k < |r| ==> r[k] == Entry(edges[k].kind, Resolve(edges[k]))
  {
    seq(|edges|, k requires 0 <= k < |edges| => Entry(edges[k].kind, Resolve(edges[k])))
  }

  /** The help link an entry records, if any: a `helps` edge records
      from->to, a `helped_by` edge to->from. */
  predicate EntryHelp(x: Entry, l: Link) {
    x.ids.Some?
    && ((x.kind == Helps && l == x.ids.value)
        || (x.kind == HelpedBy && l == Link(x.ids.value.to, x.ids.value.from)))
  }

  /** The avoid link an entry records, if any: the ordered pair of an
      `avoid` edge. */
  predicate EntryAvoid(x: Entry, l: Link) {
    x.ids.Some? && x.kind == Avoid && l == x.ids.value
  }

  predicate RecordsHelp(e: RawEdge, l: Link) {
    EntryHelp(Entry(e.kind, Resolve(e)), l)
  }

  predicate RecordsAvoid(e: RawEdge, l: Link) {
    EntryAvoid(Entry(e.kind, Resolve(e)), l)
  }

  ghost predicate WellFormed(t: Tables) {
    NoDup(t.helps) && NoDup(t.avoids)
    && (forall l :: l in t.helps ==> ValidLink(l))
    && (forall l :: l in t.avoids ==> ValidLink(l))
  }

  /** `addEdge`: an edge with an invalid id is skipped silently, as is one of
      an unknown kind. */
  function AddEdge(t: Tables, x: Entry): (r: Tables)
    ensures forall l :: l in r.helps <==> l in t.helps || EntryHelp(x, l)
    ensures forall l :: l in r.avoids <==> l in t.avoids || EntryAvoid(x, l)
  {
    if x.ids.None? then t
    else if x.kind == Helps then t.(helps := AddNew(t.helps, x.ids.value))
    else if x.kind == HelpedBy then t.(helps := AddNew(t.helps, Link(x.ids.value.to, x.ids.value.from)))
    else if x.kind == Avoid then t.(avoids := AddNew(t.avoids, x.ids.value))
    else t
  }

  /** The constructor's loop over the resolved edges, in file order. */
  function Build(entries: seq<Entry>): (t: Tables)
    ensures forall l :: l in t.helps <==> exists k :: 0 <= k < |entries| && EntryHelp(entries[k], l)
    ensures forall l :: l in t.avoids <==> exists k :: 0 <= k < |entries| && EntryAvoid(entries[k], l)
    decreases |entries|
  {
    if |entries| == 0 then Tables([], [])
    else
      var prefix := entries[..|entries| - 1];
      assert forall k :: 0 <= k < |prefix| ==> prefix[k] == entries[k];
      AddEdge(Build(prefix), entries[|entries| - 1])
  }

  /** The knowledge built from an edge file. */
  function Load(edges: seq<RawEdge>): Tables {
    Build(Resolved(edges))
  }

  /** A link is recorded exactly when some edge of the file records it. */
  lemma LoadRecords(edges: seq<RawEdge>)
    ensures forall l :: l in Load(edges).helps <==> exists k :: 0 <= k < |edges| && RecordsHelp(edges[k], l)
    ensures forall l :: l in Load(edges).avoids <==> exists k :: 0 <= k < |edges| && RecordsAvoid(edges[k], l)
  {
    var r := Resolved(edges);
    assert forall k :: 0 <= k < |edges| ==> r[k] == Entry(edges[k].kind, Resolve(edges[k]));
  }

  /** Built tables hold each link once, and only valid ids when every
      resolved pair is valid. */
  lemma {:induction false} BuildWellFormed(entries: seq<Entry>)
    requires forall k :: 0 <= k < |entries| && entries[k].ids.Some? ==> ValidLink(entries[k].ids.value)
    ensures WellFormed(Build(entries))
    decreases |entries|
  {
    if |entries| > 0 {
      var prefix := entries[..|entries| - 1];
      BuildWellFormed(prefix);
    }
  }

  /** Loaded tables hold each link once, and only valid ids. */
  lemma LoadWellFormed(edges: seq<RawEdge>)
    ensures WellFormed(Load(edges))
  {
    var r := Resolved(edges);
    forall k | 0 <= k < |r| && r[k].ids.Some?
      ensures ValidLink(r[k].ids.value)
    {
      ResolveValid(edges[k]);
    }
    BuildWellFormed(r);
  }

  /** An edge naming an invalid id changes nothing. */
  lemma InvalidEdgeSkipped(edges: seq<RawEdge>, e: RawEdge)
    requires PlantIds.Create(e.from).Err? || PlantIds.Create(e.to).Err?
    ensures Load(edges + [e]) == Load(edges)
  {
    var r := Resolved(edges + [e]);
    assert r[..|edges|] == Resolved(edges);
    assert r[|edges|].ids == None;
  }

  /** The avoid key `from>>to`. */
  function AvoidKey(from: string, to: string): string {
    from + ">>" + to
  }

  lemma NoAngleInId(s: string, i: int)
    requires MatchesIdPattern(s) && 0 <= i < |s|
    ensures s[i] != '>'
  {
    if i > 0 {
      assert IsIdChar(s[i]);
    }
  }

  /** Ids never contain `>`, so the key of a pair of ids identifies the pair
      and splitting it on `>>` gives the pair back. */
  lemma AvoidKeyInjective(a: string, b: string, c: string, d: string)
    requires MatchesIdPattern(a) && MatchesIdPattern(b) && MatchesIdPattern(c) && MatchesIdPattern(d)
    requires AvoidKey(a, b) == AvoidKey(c, d)
    ensures a == c && b == d
  {
    var k := AvoidKey(a, b);
    if |a| < |c| {
      assert k[|a|] == '>';
      assert k[|a|] == c[|a|];
      NoAngleInId(c, |a|);
    } else if |c| < |a| {
      assert AvoidKey(c, d)[|c|] == '>';
      assert k[|c|] == a[|c|];
      NoAngleInId(a, |c|);
    } else {
      assert a == k[..|a|] == c;
      assert b == k[|a| + 2..] == d;
    }
  }

  /** `helpsFrom.get(id)` in iteration order. */
  function Outgoing(helps: seq<Link>, id: string): (r: seq<string>)
    ensures forall x :: x in r <==> Link(id, x) in helps
    ensures NoDup(helps) ==> NoDup(r)
    decreases |helps|
  {
    if |helps| == 0 then []
    else
      var prefix := helps[..|helps| - 1];
      var l := helps[|helps| - 1];
      assert helps == prefix + [l];
      var acc := Outgoing(prefix, id);
      if l.from == id then acc + [l.to] else acc
  }

  /** `helpsTo.get(id)` in iteration order. */
  function Incoming(helps: seq<Link>, id: string): (r: seq<string>)
    ensures forall x :: x in r <==> Link(x, id) in helps
    ensures NoDup(helps) ==> NoDup(r)
    decreases |helps|
  {
    if |helps| == 0 then []
    else
      var prefix := helps[..|helps| - 1];
      var l := helps[|helps| - 1];
      assert helps == prefix + [l];
      var acc := Incoming(prefix, id);
      if l.to == id then acc + [l.from] else acc
  }

  /** `getCompanionCandidates`: the plants `p` helps, then the plants that
      help `p`, each once. */
  function Candidates(t: Tables, p: PlantId): (r: seq<PlantId>)
    ensures forall x :: x in r <==> Link(p.value, x.value) in t.helps || Link(x.value, p.value) in t.helps
  {
    var both := Outgoing(t.helps, p.value) + Incoming(t.helps, p.value);
    var names := Distinct(both);
    var r := ToIds(names);
    assert forall y :: y in names <==> y in both by {
      forall y | y in both ensures y in names {
        var i :| 0 <= i < |both| && both[i] == y;
      }
    }
    assert forall x :: x in r <==> x.value in names by {
      forall x: PlantId | x.value in names ensures x in r {
        var i :| 0 <= i < |names| && names[i] == x.value;
        assert r[i] == x;
      }
    }
    r
  }

  /** The candidates keep the order in which `getCompanionCandidates` first
      meets them: the plants `p` helps in insertion order, then the plants
      that help `p`. */
  lemma CandidatesOrder(t: Tables, p: PlantId)
    ensures var both := Outgoing(t.helps, p.value) + Incoming(t.helps, p.value);
            var r := Candidates(t, p);
            forall i, j :: 0 <= i < j < |r| ==> FirstIndex(both, r[i].value) < FirstIndex(both, r[j].value)
  {
    var both := Outgoing(t.helps, p.value) + Incoming(t.helps, p.value);
    DistinctOrder(both);
    assert forall i :: 0 <= i < |Candidates(t, p)| ==> Candidates(t, p)[i].value == Distinct(both)[i];
  }

  /** The candidates never repeat, and each is a valid id, so re-creating it
      (the source's `PlantId.create(candidate)`) cannot fail. */
  lemma CandidatesWellFormed(t: Tables, p: PlantId)
    requires WellFormed(t)
    ensures NoDup(Candidates(t, p))
    ensures forall i :: 0 <= i < |Candidates(t, p)| ==>
              PlantIds.Create(Candidates(t, p)[i].value) == Ok(Candidates(t, p)[i])
  {
    var r := Candidates(t, p);
    forall i | 0 <= i < |r|
      ensures PlantIds.Create(r[i].value) == Ok(r[i])
    {
      assert r[i] in r;
      if Link(p.value, r[i].value) in t.helps {
        assert ValidLink(Link(p.value, r[i].value));
      } else {
        assert ValidLink(Link(r[i].value, p.value));
      }
      PlantIds.CreateRoundTrip(r[i]);
    }
  }

  /** An avoid link recorded in either direction. */
  predicate AvoidRecorded(t: Tables, a: string, b: string) {
    Link(a, b) in t.avoids || Link(b, a) in t.avoids
  }

  /** `isHelpful` on crop names: only the crop's own outgoing helps count. */
  function IsHelpful(t: Tables, crop: CropName, companion: CropName): (r: bool)
    ensures r <==> companion.value in Outgoing(t.helps, crop.value)
  {
    Link(crop.value, companion.value) in t.helps
  }

  /** `isForbidden` on crop names: an avoid in either direction, with no
      check that the names differ. */
  function IsForbidden(t: Tables, crop: CropName, companion: CropName): (r: bool)
    ensures crop.value != "" && companion.value != "" ==>
              (r <==> crop.value in AvoidPartners(t.avoids, companion.value))
  {
    AvoidPartnersMember(t.avoids, companion.value, crop.value);
    AvoidRecorded(t, crop.value, companion.value)
  }

  lemma IsForbiddenSymmetric(t: Tables, a: CropName, b: CropName)
    ensures IsForbidden(t, a, b) == IsForbidden(t, b, a)
  {
  }

  /** The loop of `getForbiddenCompanions` over the avoid keys, in insertion
      order: the other side of every pair that names `s`, each once. */
  function AvoidPartners(avoids: seq<Link>, s: string): (r: seq<string>)
    ensures NoDup(r)
    decreases |avoids|
  {
    if |avoids| == 0 then []
    else
      var acc := AvoidPartners(avoids[..|avoids| - 1], s);
      var l := avoids[|avoids| - 1];
      if l.from == "" || l.to == "" then acc
      else if l.from == s then AddNew(acc, l.to)
      else if l.to == s then AddNew(acc, l.from)
      else acc
  }

  /** A partner is listed exactly when an avoid with two non-empty sides pairs
      it with `s`, in either order. */
  lemma {:induction false} AvoidPartnersMember(avoids: seq<Link>, s: string, x: string)
    ensures x in AvoidPartners(avoids, s) <==>
              (x != "" && s != "" && (Link(s, x) in avoids || Link(x, s) in avoids))
    decreases |avoids|
  {
    if |avoids| > 0 {
      var prefix := avoids[..|avoids| - 1];
      assert avoids == prefix + [avoids[|avoids| - 1]];
      AvoidPartnersMember(prefix, s, x);
    }
  }

  /** `getHelpfulCompanions`. */
  function HelpfulCompanions(t: Tables, crop: CropName): Result<seq<CropName>> {
    MapAll(Outgoing(t.helps, crop.value), CropNames.Create)
  }

  /** `getForbiddenCompanions`. */
  function ForbiddenCompanions(t: Tables, crop: CropName): Result<seq<CropName>> {
    MapAll(AvoidPartners(t.avoids, crop.value), CropNames.Create)
  }

  /** A valid id value is already in normal form, so it is a crop name
      exactly when it is at most 100 characters long. */
  lemma IdAsCropName(s: string)
    requires PlantIds.Valid(PlantId(s))
    ensures CropNames.Create(s) ==
              if |s| <= CropNames.MaxLength then Ok(CropName(s)) else Err(InvalidCropName(TooLong))
  {
    PlantIds.CreateRoundTrip(PlantId(s));
    IdLength(s);
  }

  /** Turning valid id values into crop names fails exactly when one of them
      is too long, and otherwise keeps every value. */
  lemma IdsAsCropNames(names: seq<string>)
    requires forall i :: 0 <= i < |names| ==> PlantIds.Valid(PlantId(names[i]))
    ensures MapAll(names, CropNames.Create).Ok? <==> forall i :: 0 <= i < |names| ==> |names[i]| <= CropNames.MaxLength
    ensures MapAll(names, CropNames.Create).Ok? ==>
              forall c :: c in MapAll(names, CropNames.Create).value <==> c.value in names
  {
    forall i | 0 <= i < |names|
      ensures CropNames.Create(names[i]) ==
                if |names[i]| <= CropNames.MaxLength then Ok(CropName(names[i])) else Err(InvalidCropName(TooLong))
    {
      IdAsCropName(names[i]);
    }
    MapShortNames(names, CropNames.Create);
  }

  /** The helpful companions of a loaded table are exactly the names the
      crop is helpful to, unless one of them is longer than a crop name may
      be. */
  lemma HelpfulCompanionsResult(t: Tables, crop: CropName)
    requires WellFormed(t)
    ensures HelpfulCompanions(t, crop).Ok? <==>
              forall x :: x in Outgoing(t.helps, crop.value) ==> |x| <= CropNames.MaxLength
    ensures HelpfulCompanions(t, crop).Ok? ==>
              forall c :: c in HelpfulCompanions(t, crop).value <==> IsHelpful(t, crop, c)
  {
    var names := Outgoing(t.helps, crop.value);
    forall i | 0 <= i < |names|
      ensures PlantIds.Valid(PlantId(names[i]))
    {
      assert names[i] in names;
      assert ValidLink(Link(crop.value, names[i]));
    }
    IdsAsCropNames(names);
  }

  /** The forbidden companions of a loaded table are exactly the names an
      avoid pairs with the crop, in either direction, unless one of them is
      longer than a crop name may be. */
  lemma ForbiddenCompanionsResult(t: Tables, crop: CropName)
    requires WellFormed(t) && crop.value != ""
    ensures ForbiddenCompanions(t, crop).Ok? <==>
              forall x :: x in AvoidPartners(t.avoids, crop.value) ==> |x| <= CropNames.MaxLength
    ensures ForbiddenCompanions(t, crop).Ok? ==>
              forall c :: c in ForbiddenCompanions(t, crop).value <==> c.value != "" && IsForbidden(t, c, crop)
  {
    var names := AvoidPartners(t.avoids, crop.value);
    forall i | 0 <= i < |names|
      ensures PlantIds.Valid(PlantId(names[i]))
    {
      AvoidPartnersMember(t.avoids, crop.value, names[i]);
      if Link(crop.value, names[i]) in t.avoids {
        assert ValidLink(Link(crop.value, names[i]));
      } else {
        assert ValidLink(Link(names[i], crop.value));
      }
    }
    IdsAsCropNames(names);
  }

  /** `canAssociate` as written: equal ids may always share a garden;
      otherwise both ids are turned into crops through `CropName.create`,
      which throws for an id longer than 100 characters, and the crop's
      association rule (no self pair, no avoid) decides. */
  function CanAssociateAsWritten(t: Tables, a: PlantId, b: PlantId): Result<bool> {
    if a == b then Ok(true)
    else
      var first :- CropNames.Create(a.value);
      var second :- CropNames.Create(b.value);
      Ok(first != second && !IsForbidden(t, first, second))
  }

  /** `getCompatibilityScore` as written: the error of `canAssociate`
      propagates. */
  function ScoreAsWritten(t: Tables, a: PlantId, b: PlantId): Result<int> {
    var ok :- CanAssociateAsWritten(t, a, b);
    if !ok then Ok(-100)
    else Ok((if Link(a.value, b.value) in t.helps then 2 else 0) + (if Link(b.value, a.value) in t.helps then 2 else 0))
  }

  /** `canAssociate` as intended: a plant may share a garden with itself, and
      two different plants may unless an avoid pairs them. */
  function CanAssociate(t: Tables, a: PlantId, b: PlantId): bool {
    a == b || !AvoidRecorded(t, a.value, b.value)
  }

  /** `isForbiddenPair`: different plants with an avoid in either direction;
      never a plant with itself. */
  function IsForbiddenPair(t: Tables, a: PlantId, b: PlantId): (r: bool)
    ensures r ==> a != b
    ensures r <==> a != b && (Link(a.value, b.value) in t.avoids || Link(b.value, a.value) in t.avoids)
  {
    !CanAssociate(t, a, b)
  }

  /** `getCompatibilityScore`: -100 for a forbidden pair, otherwise 2 for each
      direction in which a help is recorded. */
  function Score(t: Tables, a: PlantId, b: PlantId): (r: int)
    ensures r == -100 <==> IsForbiddenPair(t, a, b)
    ensures r in {-100, 0, 2, 4}
    ensures r >= 0 ==> (r >= 2 <==> Link(a.value, b.value) in t.helps || Link(b.value, a.value) in t.helps)
    ensures r >= 0 ==> (r == 4 <==> Link(a.value, b.value) in t.helps && Link(b.value, a.value) in t.helps)
  {
    if !CanAssociate(t, a, b) then -100
    else (if Link(a.value, b.value) in t.helps then 2 else 0) + (if Link(b.value, a.value) in t.helps then 2 else 0)
  }

  lemma ScoreSymmetric(t: Tables, a: PlantId, b: PlantId)
    ensures Score(t, a, b) == Score(t, b, a)
  {
  }

  /** Two different ids that both fit a crop name: the as-written check
      answers as intended. */
  lemma CanAssociateShortIds(t: Tables, a: PlantId, b: PlantId)
    requires PlantIds.Valid(a) && PlantIds.Valid(b) && a != b
    requires |a.value| <= CropNames.MaxLength && |b.value| <= CropNames.MaxLength
    ensures CanAssociateAsWritten(t, a, b) == Ok(CanAssociate(t, a, b))
  {
    IdAsCropName(a.value);
    IdAsCropName(b.value);
    var first := CropName(a.value);
    var second := CropName(b.value);
    assert first != second;
    assert IsForbidden(t, first, second) == AvoidRecorded(t, a.value, b.value);
  }

  /** Two different ids one of which is too long for a crop name: the
      as-written check throws. */
  lemma CanAssociateLongId(t: Tables, a: PlantId, b: PlantId)
    requires PlantIds.Valid(a) && PlantIds.Valid(b) && a != b
    requires |a.value| > CropNames.MaxLength || |b.value| > CropNames.MaxLength
    ensures CanAssociateAsWritten(t, a, b) == Err(InvalidCropName(TooLong))
  {
    IdAsCropName(a.value);
    IdAsCropName(b.value);
  }

  /** Where the as-written `canAssociate` does not throw it agrees with the
      intended one, and it throws exactly for two different ids one of which
      is longer than 100 characters. */
  lemma CanAssociateAsWrittenAgrees(t: Tables, a: PlantId, b: PlantId)
    requires PlantIds.Valid(a) && PlantIds.Valid(b)
    ensures CanAssociateAsWritten(t, a, b).Ok? ==> CanAssociateAsWritten(t, a, b).value == CanAssociate(t, a, b)
    ensures CanAssociateAsWritten(t, a, b).Err? <==>
              a != b && (|a.value| > CropNames.MaxLength || |b.value| > CropNames.MaxLength)
    ensures CanAssociateAsWritten(t, a, b).Err? ==> CanAssociateAsWritten(t, a, b).error == InvalidCropName(TooLong)
  {
    if a != b {
      if |a.value| <= CropNames.MaxLength && |b.value| <= CropNames.MaxLength {
        CanAssociateShortIds(t, a, b);
      } else {
        CanAssociateLongId(t, a, b);
      }
    }
  }

  /** The as-written score throws exactly when `canAssociate` does, and
      otherwise agrees with the intended score. */
  lemma ScoreAsWrittenAgrees(t: Tables, a: PlantId, b: PlantId)
    requires PlantIds.Valid(a) && PlantIds.Valid(b)
    ensures ScoreAsWritten(t, a, b).Ok? ==> ScoreAsWritten(t, a, b).value == Score(t, a, b)
    ensures ScoreAsWritten(t, a, b).Err? <==>
              a != b && (|a.value| > CropNames.MaxLength || |b.value| > CropNames.MaxLength)
  {
    CanAssociateAsWrittenAgrees(t, a, b);
  }

  /** A 101-character id: a valid plant id but too long for a crop name. */
  function LongId(): (r: PlantId)
    ensures PlantIds.Valid(r) && |r.value| == CropNames.MaxLength + 1
  {
    var s := seq(CropNames.MaxLength + 1, _ => 'a');
    assert MatchesIdPattern(s) by {
      assert IsIdHead(s[0]);
      assert forall i :: 1 <= i < |s| ==> IsIdChar(s[i]);
    }
    IdLength(s);
    PlantId(s)
  }

  /** The discrepancy: scoring a 101-character id against any other plant
      throws `InvalidCropName` as written, although the knowledge accepted the
      id and the intended score is defined. */
  lemma LongIdBreaksScore(t: Tables)
    ensures ScoreAsWritten(t, LongId(), PlantId("basil")) == Err(InvalidCropName(TooLong))
    ensures Score(t, LongId(), PlantId("basil")) in {-100, 0, 2, 4}
  {
    var long := LongId();
    var basil := PlantId("basil");
    assert long.value[0] == 'a' && basil.value[0] == 'b';
    assert PlantIds.Valid(basil) by {
      assert IsIdHead(basil.value[0]);
      assert forall i :: 1 <= i < |basil.value| ==> IsIdChar(basil.value[i]);
    }
    assert NormalizeJs(long.value) == long.value by {
      PlantIds.CreateRoundTrip(long);
    }
  }

  /** The knowledge as the planning oracle, with the intended `canAssociate`. */
  function AsOracle(t: Tables): Oracle {
    Oracle(
      (p: PlantId) => Candidates(t, p),
      (a: PlantId, b: PlantId) => IsForbiddenPair(t, a, b),
      (a: PlantId, b: PlantId) => Score(t, a, b))
  }

  /** `isHelpful` is directional: a single `helps` edge makes its source
      helpful to its target but not the reverse. */
  lemma IsHelpfulDirectional(a: PlantId, b: PlantId)
    requires PlantIds.Valid(a) && PlantIds.Valid(b) && a != b
    ensures var t := Load([RawEdge(a.value, b.value, Helps)]);
            IsHelpful(t, CropName(a.value), CropName(b.value))
            && !IsHelpful(t, CropName(b.value), CropName(a.value))
  {
    var e := RawEdge(a.value, b.value, Helps);
    PlantIds.CreateRoundTrip(a);
    PlantIds.CreateRoundTrip(b);
    var x := Entry(Helps, Some(Link(a.value, b.value)));
    assert Resolve(e) == x.ids;
    assert Resolved([e]) == [x];
    assert [x][..0] == [];
    assert Build([x]) == Tables([Link(a.value, b.value)], []);
  }
}
