/** The CSV companion registry (`CsvCompanionRegistry.fromCsv` and its
    queries). The first line is a header; every later non-blank line is split
    into fields on commas outside double quotes, quote characters are
    dropped, fields are trimmed, and a row is kept when its first three fields
    are present and the relation is exactly `helps` or `avoid`. Rows are kept
    in file order; the source groups them in a map by source, which is the
    same as filtering this sequence by source. */
module CsvRegistry {
  import opened Results
  import opened Seqs
  import opened Strings
  import opened CropNames

  datatype RelationKind = HelpsRelation | AvoidRelation

  datatype Relationship = Relationship(source: string, relation: RelationKind, destination: string)

  datatype Registry = Registry(rows: seq<Relationship>)

  // ---------------------------------------------------------------------
  // The quote-aware field splitter

  /** The splitter's state after a prefix of the line: the finished pieces
      (untrimmed), the piece being read, and whether a quote is open. */
  datatype ScanState = ScanState(pieces: seq<string>, buffer: string, insideQuotes: bool)

  /** One character of the splitter loop. */
  function Step(st: ScanState, c: char): ScanState {
    if c == '"' then st.(insideQuotes := !st.insideQuotes)
    else if c == ',' && !st.insideQuotes then ScanState(st.pieces + [st.buffer], "", st.insideQuotes)
    else st.(buffer := st.buffer + [c])
  }

  function Scan(s: string): ScanState
    decreases |s|
  {
    if |s| == 0 then ScanState([], "", false) else Step(Scan(s[..|s| - 1]), s[|s| - 1])
  }

  function TrimAll(pieces: seq<string>): (r: seq<string>)
    ensures |r| == |pieces|
    ensures forall i :: 0 <= i < |r| ==> r[i] == TrimJs(pieces[i])
  {
    seq(|pieces|, i requires 0 <= i < |pieces| => TrimJs(pieces[i]))
  }

  /** The fields of a line: every piece, the last one included, trimmed. */
  function Fields(line: string): (r: seq<string>)
    ensures |r| >= 1
    ensures forall i :: 0 <= i < |r| && |r[i]| > 0 ==> !IsJsSpace(r[i][0]) && !IsJsSpace(r[i][|r[i]| - 1])
  {
    var st := Scan(line);
    TrimAll(st.pieces + [st.buffer])
  }

  /** The line with its quote characters removed. */
  function Unquoted(s: string): (r: string)
    ensures '"' !in r
    decreases |s|
  {
    if |s| == 0 then ""
    else
      var p := Unquoted(s[..|s| - 1]);
      if s[|s| - 1] == '"' then p else p + [s[|s| - 1]]
  }

  function QuoteCount(s: string): nat {
    Count(s, '"')
  }

  /** The splitter field loop: `parsedFields`, `fieldBuffer` and
      `insideQuotes` walk the line once. */
  method SplitFields(line: string) returns (fields: seq<string>)
    ensures fields == Fields(line)
  {
    fields := [];
    var buffer := "";
    var insideQuotes := false;
    var j := 0;
    while j < |line|
      invariant 0 <= j <= |line|
      invariant fields == TrimAll(Scan(line[..j]).pieces)
      invariant buffer == Scan(line[..j]).buffer
      invariant insideQuotes == Scan(line[..j]).insideQuotes
    {
      var c := line[j];
      assert line[..j + 1][..j] == line[..j];
      if c == '"' {
        insideQuotes := !insideQuotes;
      } else if c == ',' && !insideQuotes {
        fields := fields + [TrimJs(buffer)];
        buffer := "";
      } else {
        buffer := buffer + [c];
      }
      j := j + 1;
    }
    assert line[..j] == line;
    fields := fields + [TrimJs(buffer)];
  }

  lemma JoinAppendChar(parts: seq<string>, last: string, c: char, sep: char)
    ensures Join(parts + [last + [c]], sep) == Join(parts + [last], sep) + [c]
  {
    if |parts| > 0 {
      assert (parts + [last + [c]])[..|parts|] == parts;
      assert (parts + [last])[..|parts|] == parts;
    }
  }

  lemma JoinAppendEmpty(parts: seq<string>, sep: char)
    requires |parts| > 0
    ensures Join(parts + [""], sep) == Join(parts, sep) + [sep]
  {
    assert (parts + [""])[..|parts|] == parts;
  }

  /** Nothing but the quotes is lost: joining the pieces back with commas
      gives the line without its quote characters. */
  lemma {:induction false} ScanJoin(s: string)
    ensures Join(Scan(s).pieces + [Scan(s).buffer], ',') == Unquoted(s)
    decreases |s|
  {
    if |s| > 0 {
      var p := s[..|s| - 1];
      var c := s[|s| - 1];
      var st := Scan(p);
      ScanJoin(p);
      if c == '"' {
      } else if c == ',' && !st.insideQuotes {
        JoinAppendEmpty(st.pieces + [st.buffer], ',');
        assert st.pieces + [st.buffer] + [""] == Scan(s).pieces + [Scan(s).buffer];
      } else {
        JoinAppendChar(st.pieces, st.buffer, c, ',');
      }
    }
  }

  /** A quote is open after a prefix exactly when the prefix holds an odd
      number of quote characters. */
  lemma {:induction false} ScanQuoteParity(s: string)
    ensures Scan(s).insideQuotes <==> QuoteCount(s) % 2 == 1
    decreases |s|
  {
    if |s| > 0 {
      ScanQuoteParity(s[..|s| - 1]);
    }
  }

  /** Without quotes the splitter is a plain split on commas. */
  lemma {:induction false} ScanWithoutQuotes(s: string)
    requires '"' !in s
    ensures Scan(s).pieces + [Scan(s).buffer] == Split(s, ',')
    ensures !Scan(s).insideQuotes
    decreases |s|
  {
    if |s| > 0 {
      var p := s[..|s| - 1];
      assert forall i :: 0 <= i < |p| ==> p[i] == s[i];
      ScanWithoutQuotes(p);
      var sp := Split(p, ',');
      assert sp[..|sp| - 1] == Scan(p).pieces;
    }
  }

  /** Without quotes the fields are the trimmed comma-separated pieces. */
  lemma FieldsWithoutQuotes(s: string)
    requires '"' !in s
    ensures Fields(s) == TrimAll(Split(s, ','))
  {
    ScanWithoutQuotes(s);
  }

  /** Inside quotes a comma is kept as part of the field. */
  lemma QuotedCommaKept(s: string)
    requires Scan(s).insideQuotes
    ensures Scan(s + [',']) == Scan(s).(buffer := Scan(s).buffer + [','])
  {
    assert (s + [','])[..|s|] == s;
  }

  // ---------------------------------------------------------------------
  // Rows

  function KindOf(relation: string): Option<RelationKind> {
    if relation == "helps" then Some(HelpsRelation)
    else if relation == "avoid" then Some(AvoidRelation)
    else None
  }

  /** A row's relationship from its fields: the first three must be
      non-empty and the relation exactly `helps` or `avoid` (case-sensitive);
      source and destination are lower-cased, further fields ignored. */
  function ParseFields(f: seq<string>): (r: Option<Relationship>)
    ensures r.Some? <==> |f| >= 3 && f[0] != "" && f[2] != "" && (f[1] == "helps" || f[1] == "avoid")
    ensures r.Some? ==>
              r.value.source == ToLower(f[0]) && r.value.destination == ToLower(f[2])
              && (r.value.relation == HelpsRelation <==> f[1] == "helps")
  {
    if |f| < 3 || f[0] == "" || f[1] == "" || f[2] == "" then None
    else
      var kind := KindOf(f[1]);
      if kind.None? then None
      else Some(Relationship(ToLower(f[0]), kind.value, ToLower(f[2])))
  }

  /** The body of the row loop for one line after the header: a blank line
      is skipped, any other is split and parsed. */
  function LineRow(line: string): Option<Relationship> {
    var trimmed := TrimJs(line);
    if trimmed == "" then None else ParseFields(Fields(trimmed))
  }

  function LineRows(lines: seq<string>): (r: seq<Option<Relationship>>)
    ensures |r| == |lines|
    ensures forall k :: 0 <= k < |lines| ==> r[k] == LineRow(lines[k])
  {
    seq(|lines|, k requires 0 <= k < |lines| => LineRow(lines[k]))
  }

  /** `fromCsv`: trim, split into lines, skip the header, keep the rows of
      the other lines in order. */
  function FromCsv(csv: string): Registry {
    var lines := Split(TrimJs(csv), '\n');
    Registry(Somes(LineRows(lines[1..])))
  }

  /** A single line (a header alone) gives an empty registry. */
  lemma HeaderOnly(csv: string)
    requires '\n' !in TrimJs(csv)
    ensures FromCsv(csv).rows == []
    ensures forall a, b :: !IsHelpful(FromCsv(csv), a, b) && !IsForbidden(FromCsv(csv), a, b)
  {
    SplitNoSep(TrimJs(csv), '\n');
  }

  /** Every kept row has a non-empty, trimmed, lower-case source and
      destination. */
  ghost predicate NormalName(s: string) {
    |s| > 0 && !IsJsSpace(s[0]) && !IsJsSpace(s[|s| - 1])
    && forall i :: 0 <= i < |s| ==> !IsUpperAsciiLetter(s[i])
  }

  lemma LowerKeepsNormal(s: string)
    requires |s| > 0 && !IsJsSpace(s[0]) && !IsJsSpace(s[|s| - 1])
    ensures NormalName(ToLower(s))
  {
    assert ToLower(s)[0] == ToLowerChar(s[0]);
    assert ToLower(s)[|s| - 1] == ToLowerChar(s[|s| - 1]);
  }

  /** Fields are trimmed, so parsed names are normal. */
  lemma ParseFieldsNormal(f: seq<string>)
    requires forall i :: 0 <= i < |f| && |f[i]| > 0 ==> !IsJsSpace(f[i][0]) && !IsJsSpace(f[i][|f[i]| - 1])
    requires ParseFields(f).Some?
    ensures NormalName(ParseFields(f).value.source) && NormalName(ParseFields(f).value.destination)
  {
    LowerKeepsNormal(f[0]);
    LowerKeepsNormal(f[2]);
  }

  lemma LineRowNormal(line: string)
    requires LineRow(line).Some?
    ensures NormalName(LineRow(line).value.source) && NormalName(LineRow(line).value.destination)
  {
    ParseFieldsNormal(Fields(TrimJs(line)));
  }

  lemma RowsNormal(lines: seq<string>)
    ensures forall x :: x in Somes(LineRows(lines)) ==> NormalName(x.source) && NormalName(x.destination)
  {
    var rows := LineRows(lines);
    forall x: Relationship | x in Somes(rows)
      ensures NormalName(x.source) && NormalName(x.destination)
    {
      var k :| 0 <= k < |rows| && rows[k] == Some(x);
      LineRowNormal(lines[k]);
    }
  }

  /** Every row read from CSV text has normal names. */
  lemma FromCsvNormal(csv: string)
    ensures forall x :: x in FromCsv(csv).rows ==> NormalName(x.source) && NormalName(x.destination)
  {
    RowsNormal(Split(TrimJs(csv), '\n')[1..]);
  }

  lemma JoinThree(a: string, rel: string, b: string)
    ensures Join([a, rel, b], ',') == a + [','] + rel + [','] + b
  {
    assert [a, rel][..1] == [a];
    assert Join([a], ',') == a;
    assert Join([a, rel], ',') == a + [','] + rel;
    assert [a, rel, b][..2] == [a, rel];
  }

  /** Pieces free of quotes and commas, joined with commas, split back
      into their trimmed selves. */
  lemma FieldsOfJoin(parts: seq<string>)
    requires |parts| >= 1
    requires forall i :: 0 <= i < |parts| ==> '"' !in parts[i] && ',' !in parts[i]
    ensures Fields(Join(parts, ',')) == TrimAll(parts)
  {
    SplitJoin(parts, ',');
    JoinWithoutQuotes(parts);
    FieldsWithoutQuotes(Join(parts, ','));
  }

  lemma {:induction false} JoinWithoutQuotes(parts: seq<string>)
    requires forall i :: 0 <= i < |parts| ==> '"' !in parts[i]
    ensures '"' !in Join(parts, ',')
  {
    if |parts| > 1 {
      JoinWithoutQuotes(parts[..|parts| - 1]);
    }
  }

  lemma FieldsOfThree(line: string, a: string, rel: string, b: string)
    requires '"' !in a && '"' !in rel && '"' !in b && ',' !in a && ',' !in rel && ',' !in b
    requires line == Join([a, rel, b], ',')
    ensures Fields(line) == TrimAll([a, rel, b])
  {
    FieldsOfJoin([a, rel, b]);
  }

  lemma TrimThree(a: string, rel: string, b: string)
    ensures TrimAll([a, rel, b]) == [TrimJs(a), TrimJs(rel), TrimJs(b)]
  {
    var t := TrimAll([a, rel, b]);
    assert t == [t[0], t[1], t[2]];
  }

  /** A simple line `a,rel,b` with no quotes or commas inside the fields
      splits into exactly those three fields. */
  lemma SimpleLineFields(line: string, a: string, rel: string, b: string)
    requires '"' !in a && '"' !in rel && '"' !in b && ',' !in a && ',' !in rel && ',' !in b
    requires line == a + [','] + rel + [','] + b
    ensures Fields(line) == [TrimJs(a), TrimJs(rel), TrimJs(b)]
  {
    JoinThree(a, rel, b);
    FieldsOfThree(line, a, rel, b);
    TrimThree(a, rel, b);
  }

  // ---------------------------------------------------------------------
  // Queries

  /** The destinations of `source`'s rows of one kind, in file order, with
      repetitions. */
  function Destinations(rows: seq<Relationship>, source: string, kind: RelationKind): (r: seq<string>)
    ensures forall x :: x in r <==> Relationship(source, kind, x) in rows
    ensures |r| <= |rows|
    decreases |rows|
  {
    if |rows| == 0 then []
    else
      var prefix := rows[..|rows| - 1];
      var last := rows[|rows| - 1];
      assert rows == prefix + [last];
      var acc := Destinations(prefix, source, kind);
      if last.source == source && last.relation == kind then acc + [last.destination] else acc
  }

  /** How often a row `source kind x` occurs. */
  lemma {:induction false} DestinationsCount(rows: seq<Relationship>, source: string, kind: RelationKind, x: string)
    ensures Count(Destinations(rows, source, kind), x) == Count(rows, Relationship(source, kind, x))
    decreases |rows|
  {
    if |rows| > 0 {
      var prefix := rows[..|rows| - 1];
      DestinationsCount(prefix, source, kind, x);
      var acc := Destinations(prefix, source, kind);
      var last := rows[|rows| - 1];
      if last.source == source && last.relation == kind {
        assert (acc + [last.destination])[..|acc|] == acc;
      }
    }
  }

  /** `isHelpful`: a `helps` row from the crop to the companion; only the
      crop's own rows are consulted. */
  predicate IsHelpful(reg: Registry, crop: CropName, companion: CropName) {
    exists k :: 0 <= k < |reg.rows| && reg.rows[k] == Relationship(crop.value, HelpsRelation, companion.value)
  }

  /** `isForbidden`: an `avoid` row from the crop to the companion; the
      reverse row is not consulted. */
  predicate IsForbidden(reg: Registry, crop: CropName, companion: CropName) {
    exists k :: 0 <= k < |reg.rows| && reg.rows[k] == Relationship(crop.value, AvoidRelation, companion.value)
  }

  /** `getHelpfulCompanions`: `CropName.create` of every helps destination. */
  function HelpfulCompanions(reg: Registry, crop: CropName): Result<seq<CropName>> {
    MapAll(Destinations(reg.rows, crop.value, HelpsRelation), CropNames.Create)
  }

  /** `getForbiddenCompanions`: `CropName.create` of every avoid destination. */
  function ForbiddenCompanions(reg: Registry, crop: CropName): Result<seq<CropName>> {
    MapAll(Destinations(reg.rows, crop.value, AvoidRelation), CropNames.Create)
  }

  /** A normal name is a crop name exactly when it is short enough. */
  lemma NormalAsCropName(s: string)
    requires NormalName(s)
    ensures CropNames.Create(s) ==
              if JsLength(s) <= CropNames.MaxLength then Ok(CropName(s)) else Err(InvalidCropName(TooLong))
  {
    NormalizeJsOfNormal(s);
  }

  /** Normal names become crop names unchanged unless one is too long. */
  lemma NormalNamesAsCropNames(names: seq<string>)
    requires forall i :: 0 <= i < |names| ==> NormalName(names[i])
    ensures var r := MapAll(names, CropNames.Create);
            (r.Ok? <==> forall i :: 0 <= i < |names| ==> JsLength(names[i]) <= CropNames.MaxLength)
            && (r.Ok? ==> |r.value| == |names| && forall i :: 0 <= i < |names| ==> r.value[i].value == names[i])
            && (r.Ok? ==> forall c :: c in r.value <==> c.value in names)
  {
    forall i | 0 <= i < |names|
      ensures CropNames.Create(names[i]) ==
                if JsLength(names[i]) <= CropNames.MaxLength then Ok(CropName(names[i])) else Err(InvalidCropName(TooLong))
    {
      NormalAsCropName(names[i]);
    }
    MapShortNames(names, CropNames.Create);
  }

  lemma NormalDestinations(reg: Registry, crop: CropName, kind: RelationKind)
    requires forall x :: x in reg.rows ==> NormalName(x.destination)
    ensures forall i :: 0 <= i < |Destinations(reg.rows, crop.value, kind)| ==>
              NormalName(Destinations(reg.rows, crop.value, kind)[i])
  {
    var dests := Destinations(reg.rows, crop.value, kind);
    forall i | 0 <= i < |dests| ensures NormalName(dests[i]) {
      assert dests[i] in dests;
      assert Relationship(crop.value, kind, dests[i]) in reg.rows;
    }
  }

  /** The listed companions of a registry with normal names are the
      destinations themselves, in file order and with repetitions, unless
      one is too long for a crop name. */
  lemma CompanionListsResult(reg: Registry, crop: CropName, kind: RelationKind)
    requires forall x :: x in reg.rows ==> NormalName(x.destination)
    ensures var dests := Destinations(reg.rows, crop.value, kind);
            var r := MapAll(dests, CropNames.Create);
            (r.Ok? <==> forall i :: 0 <= i < |dests| ==> JsLength(dests[i]) <= CropNames.MaxLength)
            && (r.Ok? ==> |r.value| == |dests| && forall i :: 0 <= i < |dests| ==> r.value[i].value == dests[i])
  {
    NormalDestinations(reg, crop, kind);
    NormalNamesAsCropNames(Destinations(reg.rows, crop.value, kind));
  }

  /** A name is listed exactly when the registry has a row of that kind
      from the crop to it. */
  lemma ListedIffRow(reg: Registry, crop: CropName, kind: RelationKind)
    requires forall x :: x in reg.rows ==> NormalName(x.destination)
    ensures var r := MapAll(Destinations(reg.rows, crop.value, kind), CropNames.Create);
            r.Ok? ==> forall c :: c in r.value <==> Relationship(crop.value, kind, c.value) in reg.rows
  {
    NormalDestinations(reg, crop, kind);
    NormalNamesAsCropNames(Destinations(reg.rows, crop.value, kind));
  }

  /** `getHelpfulCompanions` lists exactly the names `isHelpful` accepts. */
  lemma HelpfulCompanionsMembers(reg: Registry, crop: CropName)
    requires forall x :: x in reg.rows ==> NormalName(x.destination)
    ensures HelpfulCompanions(reg, crop).Ok? ==>
              forall c :: c in HelpfulCompanions(reg, crop).value <==> IsHelpful(reg, crop, c)
  {
    ListedIffRow(reg, crop, HelpsRelation);
  }

  /** `getForbiddenCompanions` lists exactly the names `isForbidden` accepts. */
  lemma ForbiddenCompanionsMembers(reg: Registry, crop: CropName)
    requires forall x :: x in reg.rows ==> NormalName(x.destination)
    ensures ForbiddenCompanions(reg, crop).Ok? ==>
              forall c :: c in ForbiddenCompanions(reg, crop).value <==> IsForbidden(reg, crop, c)
  {
    ListedIffRow(reg, crop, AvoidRelation);
  }

  /** The same for a registry read from CSV text. */
  lemma CsvCompanionListsResult(csv: string, crop: CropName, kind: RelationKind)
    ensures var reg := FromCsv(csv);
            var dests := Destinations(reg.rows, crop.value, kind);
            var r := MapAll(dests, CropNames.Create);
            (r.Ok? <==> forall i :: 0 <= i < |dests| ==> JsLength(dests[i]) <= CropNames.MaxLength)
            && (r.Ok? ==> |r.value| == |dests| && forall i :: 0 <= i < |dests| ==> r.value[i].value == dests[i])
  {
    FromCsvNormal(csv);
    CompanionListsResult(FromCsv(csv), crop, kind);
  }

  /** The queries are directional: a single `tomato helps basil` row makes
      tomato helpful to basil, not basil to tomato, and forbids nothing. */
  lemma QueriesDirectional()
    ensures var reg := Registry([Relationship("tomato", HelpsRelation, "basil")]);
            IsHelpful(reg, CropName("tomato"), CropName("basil"))
            && !IsHelpful(reg, CropName("basil"), CropName("tomato"))
            && !IsForbidden(reg, CropName("tomato"), CropName("basil"))
  {
    var reg := Registry([Relationship("tomato", HelpsRelation, "basil")]);
    assert reg.rows[0] == Relationship("tomato", HelpsRelation, "basil");
    assert "basil"[0] != "tomato"[0];
  }
}
