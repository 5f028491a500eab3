/**
  The index of a catalog file: sections (offset, length) of the file by schema, package and
  name. A query intersects sections; its answer must be what a scan of the file would give.
*/
module CatalogIndex {
  import opened Objects
  import opened Ordering

  datatype Meta = Meta(schema: string, package: string, name: string, blob: Bytes)

  datatype Section = Section(offset: nat, length: nat)

  datatype Index = Index(bySchema: map<string, seq<Section>>, byPackage: map<string, seq<Section>>,
                         byName: map<string, seq<Section>>)

  /** An empty parameter matches everything. */
  datatype Query = Query(schema: string, package: string, name: string)

  // ---------- the catalog file ----------

  /** The stored file: the blobs one after the other. */
  function FileOf(metas: seq<Meta>): Bytes {
    if metas == [] then "" else FileOf(metas[..|metas| - 1]) + metas[|metas| - 1].blob
  }

  function SectionAt(metas: seq<Meta>, i: nat): Section
    requires i < |metas|
  {
    Section(|FileOf(metas[..i])|, |metas[i].blob|)
  }

  lemma {:induction false} FileOfPrefix(metas: seq<Meta>, i: nat)
    requires i <= |metas|
    ensures FileOf(metas[..i]) <= FileOf(metas)
    decreases |metas|
  {
    if i < |metas| {
      var front := metas[..|metas| - 1];
      FileOfPrefix(front, i);
      assert front[..i] == metas[..i];
    } else {
      assert metas[..i] == metas;
    }
  }

  /** Each blob is what its section reads. */
  lemma SectionReadsBlob(metas: seq<Meta>, i: nat)
    requires i < |metas|
    ensures ReadSection(FileOf(metas), SectionAt(metas, i)) == metas[i].blob
  {
    var upTo := metas[..i + 1];
    assert upTo[..i] == metas[..i];
    assert FileOf(upTo) == FileOf(metas[..i]) + metas[i].blob;
    FileOfPrefix(metas, i + 1);
  }

  /** A non-empty blob moves the offset on. */
  lemma OffsetsGrow(metas: seq<Meta>, i: nat, j: nat)
    requires i < j < |metas|
    ensures SectionAt(metas, i).offset + SectionAt(metas, i).length <= SectionAt(metas, j).offset
  {
    assert metas[..j][..i + 1] == metas[..i + 1] && metas[..i + 1][..i] == metas[..i];
    FileOfPrefix(metas[..j], i + 1);
  }

  // ---------- newIndex ----------

  datatype Field = BySchema | ByPackage | ByName

  function FieldOf(f: Field, m: Meta): string {
    match f
    case BySchema => m.schema
    case ByPackage => m.package
    case ByName => m.name
  }

  /** The sections of the metas whose field is `value`, in file order. */
  function SectionsWhere(metas: seq<Meta>, f: Field, value: string): seq<Section> {
    if metas == [] then []
    else
      var n := |metas| - 1;
      SectionsWhere(metas[..n], f, value) +
      (if FieldOf(f, metas[n]) == value then [SectionAt(metas, n)] else [])
  }

  function Sections(m: map<string, seq<Section>>, value: string): seq<Section> {
    if value in m then m[value] else []
  }

  ghost predicate Indexes(m: map<string, seq<Section>>, metas: seq<Meta>, f: Field) {
    "" !in m && forall value :: value != "" ==> Sections(m, value) == SectionsWhere(metas, f, value)
  }

  ghost predicate IsIndexOf(idx: Index, metas: seq<Meta>) {
    && Indexes(idx.bySchema, metas, BySchema)
    && Indexes(idx.byPackage, metas, ByPackage)
    && Indexes(idx.byName, metas, ByName)
  }

  function Append(m: map<string, seq<Section>>, value: string, s: Section): map<string, seq<Section>> {
    if value == "" then m else m[value := Sections(m, value) + [s]]
  }

  lemma AppendIndexes(m: map<string, seq<Section>>, metas: seq<Meta>, i: nat, f: Field)
    requires i < |metas| && Indexes(m, metas[..i], f)
    ensures Indexes(Append(m, FieldOf(f, metas[i]), SectionAt(metas, i)), metas[..i + 1], f)
  {
    var upTo := metas[..i + 1];
    assert upTo[..i] == metas[..i];
    assert SectionAt(upTo, i) == SectionAt(metas, i);
    var m' := Append(m, FieldOf(f, metas[i]), SectionAt(metas, i));
    forall value | value != "" ensures Sections(m', value) == SectionsWhere(upTo, f, value) {
      assert Sections(m, value) == SectionsWhere(metas[..i], f, value);
    }
  }

  /** newIndex. */
  method NewIndex(metas: seq<Meta>) returns (idx: Index)
    ensures IsIndexOf(idx, metas)
  {
    idx := Index(map[], map[], map[]);
    var offset := 0;
    for i := 0 to |metas|
      invariant offset == |FileOf(metas[..i])|
      invariant IsIndexOf(idx, metas[..i])
    {
      var meta := metas[i];
      var start := offset;
      offset := offset + |meta.blob|;
      assert metas[..i + 1][..i] == metas[..i];
      var s := Section(start, |meta.blob|);
      assert s == SectionAt(metas, i);
      AppendIndexes(idx.bySchema, metas, i, BySchema);
      AppendIndexes(idx.byPackage, metas, i, ByPackage);
      AppendIndexes(idx.byName, metas, i, ByName);
      idx := Index(Append(idx.bySchema, meta.schema, s), Append(idx.byPackage, meta.package, s),
                   Append(idx.byName, meta.name, s));
    }
    assert metas[..|metas|] == metas;
  }

  // ---------- Get ----------

  function Range(s: seq<Section>): set<Section> { set x | x in s }

  /** All sections if no schema is asked for, otherwise those of the schema. */
  function SchemaSet(idx: Index, schema: string): set<Section> {
    if schema == "" then set k, s | k in idx.bySchema && s in idx.bySchema[k] :: s
    else Range(Sections(idx.bySchema, schema))
  }

  /** getSectionSet. */
  function SectionSet(idx: Index, q: Query): set<Section> {
    var all := SchemaSet(idx, q.schema);
    var inPackage := if q.package != "" then all * Range(Sections(idx.byPackage, q.package)) else all;
    if q.name != "" then inPackage * Range(Sections(idx.byName, q.name)) else inPackage
  }

  /** A section reader stops at the end of the file. */
  function ReadSection(file: Bytes, s: Section): Bytes {
    if s.offset > |file| then ""
    else if s.offset + s.length > |file| then file[s.offset..]
    else file[s.offset..s.offset + s.length]
  }

  function ReadAll(file: Bytes, sections: seq<Section>): Bytes {
    if sections == [] then ""
    else ReadAll(file, sections[..|sections| - 1]) + ReadSection(file, sections[|sections| - 1])
  }

  function CompareOffsets(a: Section, b: Section): int { CompareInts(a.offset, b.offset) }

  method UnsortedList(sections: set<Section>) returns (list: seq<Section>)
    ensures multiset(list) == multiset(sections)
  {
    list := [];
    var left := sections;
    while left != {}
      invariant left <= sections
      invariant multiset(list) + multiset(left) == multiset(sections)
    {
      var s :| s in left;
      list := list + [s];
      left := left - {s};
    }
  }

  // ---------- the reference: scanning the metas ----------

  predicate Matches(m: Meta, q: Query) {
    && (q.schema == "" || m.schema == q.schema)
    && (q.package == "" || m.package == q.package)
    && (q.name == "" || m.name == q.name)
  }

  /** Which of the matching metas to keep. */
  datatype Scope = All | WithSchema | WithoutSchema

  predicate Kept(m: Meta, q: Query, scope: Scope) {
    Matches(m, q) && match scope case All => true case WithSchema => m.schema != "" case WithoutSchema => m.schema == ""
  }

  /** The blobs of the matching metas, in file order. */
  function Scan(metas: seq<Meta>, q: Query, scope: Scope): Bytes {
    if metas == [] then ""
    else
      var m := metas[|metas| - 1];
      Scan(metas[..|metas| - 1], q, scope) + (if Kept(m, q, scope) then m.blob else "")
  }

  // ---------- the sections of an answer ----------

  ghost predicate IsSectionOf(metas: seq<Meta>, s: Section, i: int) {
    0 <= i < |metas| && s == SectionAt(metas, i)
  }

  lemma IsSectionOfPrefix(metas: seq<Meta>, n: nat, s: Section, i: int)
    requires n <= |metas|
    ensures IsSectionOf(metas[..n], s, i) <==> i < n && IsSectionOf(metas, s, i)
  {
    if 0 <= i < n { assert metas[..n][..i] == metas[..i]; }
  }

  lemma {:induction false} SectionsWhereSound(metas: seq<Meta>, f: Field, value: string, s: Section) returns (i: int)
    requires s in SectionsWhere(metas, f, value)
    ensures IsSectionOf(metas, s, i) && FieldOf(f, metas[i]) == value
  {
    var n := |metas| - 1;
    if s in SectionsWhere(metas[..n], f, value) {
      i := SectionsWhereSound(metas[..n], f, value, s);
      IsSectionOfPrefix(metas, n, s, i);
    } else {
      i := n;
    }
  }

  lemma {:induction false} SectionsWhereComplete(metas: seq<Meta>, f: Field, value: string, s: Section, i: int)
    requires IsSectionOf(metas, s, i) && FieldOf(f, metas[i]) == value
    ensures s in SectionsWhere(metas, f, value)
  {
    var n := |metas| - 1;
    if i < n {
      IsSectionOfPrefix(metas, n, s, i);
      SectionsWhereComplete(metas[..n], f, value, s, i);
    }
  }

  /** Only empty blobs can share a section. */
  lemma SectionOfOneMeta(metas: seq<Meta>, s: Section, i: int, j: int)
    requires IsSectionOf(metas, s, i) && IsSectionOf(metas, s, j) && s.length > 0
    ensures i == j
  {
    if i < j { OffsetsGrow(metas, i, j); } else if j < i { OffsetsGrow(metas, j, i); }
  }

  /** Membership in one of the three maps, for the section of meta i. */
  lemma ListedUnder(m: map<string, seq<Section>>, metas: seq<Meta>, f: Field, value: string, s: Section, i: int)
    requires Indexes(m, metas, f) && value != "" && IsSectionOf(metas, s, i) && s.length > 0
    ensures s in Sections(m, value) <==> FieldOf(f, metas[i]) == value
  {
    if s in SectionsWhere(metas, f, value) {
      var j := SectionsWhereSound(metas, f, value, s);
      SectionOfOneMeta(metas, s, i, j);
    }
    if FieldOf(f, metas[i]) == value {
      SectionsWhereComplete(metas, f, value, s, i);
    }
  }

  lemma ListedUnderSome(m: map<string, seq<Section>>, metas: seq<Meta>, f: Field, value: string, s: Section)
    returns (i: int)
    requires Indexes(m, metas, f) && s in Sections(m, value)
    ensures IsSectionOf(metas, s, i) && FieldOf(f, metas[i]) == value && value != ""
  {
    i := SectionsWhereSound(metas, f, value, s);
  }

  /** Every section found by schema is that of some meta with a schema. */
  lemma SchemaSetIsSection(idx: Index, metas: seq<Meta>, schema: string, s: Section) returns (i: int)
    requires IsIndexOf(idx, metas) && s in SchemaSet(idx, schema)
    ensures IsSectionOf(metas, s, i) && metas[i].schema != ""
  {
    var k := schema;
    if schema == "" {
      k :| k in idx.bySchema && s in idx.bySchema[k];
    }
    i := ListedUnderSome(idx.bySchema, metas, BySchema, k, s);
  }

  lemma SelectedIsSection(idx: Index, metas: seq<Meta>, q: Query, s: Section) returns (i: int)
    requires IsIndexOf(idx, metas) && s in SectionSet(idx, q)
    ensures IsSectionOf(metas, s, i) && metas[i].schema != ""
  {
    i := SchemaSetIsSection(idx, metas, q.schema, s);
  }

  lemma SchemaSelectsExactly(idx: Index, metas: seq<Meta>, schema: string, s: Section, i: int)
    requires IsIndexOf(idx, metas) && IsSectionOf(metas, s, i) && s.length > 0
    ensures s in SchemaSet(idx, schema) <==> metas[i].schema != "" && (schema == "" || metas[i].schema == schema)
  {
    if metas[i].schema == "" {
      if s in SchemaSet(idx, schema) {
        var j := SchemaSetIsSection(idx, metas, schema, s);
        SectionOfOneMeta(metas, s, i, j);
      }
    } else if schema == "" {
      ListedUnder(idx.bySchema, metas, BySchema, metas[i].schema, s, i);
      assert metas[i].schema in idx.bySchema && s in idx.bySchema[metas[i].schema];
    } else {
      ListedUnder(idx.bySchema, metas, BySchema, schema, s, i);
    }
  }

  lemma SelectionIsConjunction(idx: Index, q: Query, s: Section)
    ensures s in SectionSet(idx, q) <==>
            && s in SchemaSet(idx, q.schema)
            && (q.package == "" || s in Range(Sections(idx.byPackage, q.package)))
            && (q.name == "" || s in Range(Sections(idx.byName, q.name)))
  {}

  /** Filtering by package and by name. */
  lemma FilterSelectsExactly(idx: Index, metas: seq<Meta>, q: Query, s: Section, i: int)
    requires IsIndexOf(idx, metas) && IsSectionOf(metas, s, i) && s.length > 0
    ensures q.package != "" ==> (s in Range(Sections(idx.byPackage, q.package)) <==> metas[i].package == q.package)
    ensures q.name != "" ==> (s in Range(Sections(idx.byName, q.name)) <==> metas[i].name == q.name)
  {
    if q.package != "" { ListedUnder(idx.byPackage, metas, ByPackage, q.package, s, i); }
    if q.name != "" { ListedUnder(idx.byName, metas, ByName, q.name, s, i); }
  }

  /** A non-empty section is selected exactly when its meta matches. */
  lemma SelectedExactly(idx: Index, metas: seq<Meta>, q: Query, s: Section, i: int)
    requires IsIndexOf(idx, metas) && IsSectionOf(metas, s, i) && s.length > 0
    ensures s in SectionSet(idx, q) <==> Kept(metas[i], q, WithSchema)
  {
    SchemaSelectsExactly(idx, metas, q.schema, s, i);
    FilterSelectsExactly(idx, metas, q, s, i);
    SelectionIsConjunction(idx, q, s);
  }

  // ---------- reading them in order ----------

  ghost predicate StrictlyAscending(s: seq<Section>) {
    forall i, j :: 0 <= i < j < |s| ==> s[i].offset < s[j].offset
  }

  lemma {:induction false} StrictlyAscendingUnique(a: seq<Section>, b: seq<Section>)
    requires StrictlyAscending(a) && StrictlyAscending(b) && forall s :: s in a <==> s in b
    ensures a == b
    decreases |a|
  {
    if a == [] {
      assert forall i :: 0 <= i < |b| ==> b[i] !in a;
    } else {
      assert a[0] in b;
      assert b[0] in a;
      assert a[0] == b[0];
      forall s ensures s in a[1..] <==> s in b[1..] {
        TailMember(a, s);
        TailMember(b, s);
      }
      StrictlyAscendingUnique(a[1..], b[1..]);
      assert a == [a[0]] + a[1..] && b == [b[0]] + b[1..];
    }
  }

  lemma TailMember(a: seq<Section>, s: Section)
    requires a != [] && StrictlyAscending(a)
    ensures s in a[1..] <==> s in a && s != a[0]
  {}

  /** The list without the sections that read nothing. */
  function NonEmptyOnly(s: seq<Section>): seq<Section> {
    if s == [] then []
    else
      var n := |s| - 1;
      NonEmptyOnly(s[..n]) + (if s[n].length > 0 then [s[n]] else [])
  }

  lemma {:induction false} NonEmptyOnlyExact(list: seq<Section>, s: Section)
    ensures s in NonEmptyOnly(list) <==> s in list && s.length > 0
  {
    if list != [] { NonEmptyOnlyExact(list[..|list| - 1], s); }
  }

  lemma {:induction false} NonEmptyOnlyReads(file: Bytes, list: seq<Section>)
    ensures ReadAll(file, NonEmptyOnly(list)) == ReadAll(file, list)
  {
    if list != [] {
      var n := |list| - 1;
      NonEmptyOnlyReads(file, list[..n]);
      var front := NonEmptyOnly(list[..n]);
      if list[n].length > 0 {
        assert (front + [list[n]])[..|front|] == front;
      } else {
        assert NonEmptyOnly(list) == front;
        assert ReadSection(file, list[n]) == "";
      }
    }
  }

  lemma {:induction false} NonEmptyOnlyAscending(list: seq<Section>)
    requires SortedBy(CompareOffsets, list)
    requires forall i, j :: 0 <= i < j < |list| && list[i].length > 0 && list[j].length > 0 ==>
               list[i].offset != list[j].offset
    ensures StrictlyAscending(NonEmptyOnly(list))
  {
    if list != [] {
      var n := |list| - 1;
      NonEmptyOnlyAscending(list[..n]);
      forall s | s in NonEmptyOnly(list[..n]) && list[n].length > 0 ensures s.offset < list[n].offset {
        NonEmptyOnlyExact(list[..n], s);
        var i :| 0 <= i < n && list[i] == s;
        assert CompareOffsets(list[i], list[n]) <= 0;
      }
    }
  }

  /** The non-empty sections of the kept metas, in file order. */
  function KeptSections(metas: seq<Meta>, q: Query): seq<Section> {
    if metas == [] then []
    else
      var n := |metas| - 1;
      KeptSections(metas[..n], q) +
      (if Kept(metas[n], q, WithSchema) && |metas[n].blob| > 0 then [SectionAt(metas, n)] else [])
  }

  lemma {:induction false} KeptSectionsSound(metas: seq<Meta>, q: Query, s: Section) returns (i: int)
    requires s in KeptSections(metas, q)
    ensures IsSectionOf(metas, s, i) && Kept(metas[i], q, WithSchema) && s.length > 0
  {
    var n := |metas| - 1;
    if s in KeptSections(metas[..n], q) {
      i := KeptSectionsSound(metas[..n], q, s);
      IsSectionOfPrefix(metas, n, s, i);
    } else {
      i := n;
    }
  }

  lemma {:induction false} KeptSectionsComplete(metas: seq<Meta>, q: Query, s: Section, i: int)
    requires IsSectionOf(metas, s, i) && Kept(metas[i], q, WithSchema) && s.length > 0
    ensures s in KeptSections(metas, q)
  {
    var n := |metas| - 1;
    if i < n {
      IsSectionOfPrefix(metas, n, s, i);
      KeptSectionsComplete(metas[..n], q, s, i);
    }
  }

  lemma {:induction false} KeptSectionsAscending(metas: seq<Meta>, q: Query)
    ensures StrictlyAscending(KeptSections(metas, q))
  {
    if metas != [] {
      var n := |metas| - 1;
      KeptSectionsAscending(metas[..n], q);
      forall s | s in KeptSections(metas[..n], q) ensures s.offset < SectionAt(metas, n).offset {
        var i := KeptSectionsSound(metas[..n], q, s);
        IsSectionOfPrefix(metas, n, s, i);
        OffsetsGrow(metas, i, n);
      }
    }
  }

  lemma ReadAllSnoc(file: Bytes, list: seq<Section>, s: Section)
    ensures ReadAll(file, list + [s]) == ReadAll(file, list) + ReadSection(file, s)
  {}

  lemma KeptSectionsSnoc(metas: seq<Meta>, q: Query, m: nat)
    requires m < |metas|
    ensures KeptSections(metas[..m + 1], q) == KeptSections(metas[..m], q) +
            if Kept(metas[m], q, WithSchema) && |metas[m].blob| > 0 then [SectionAt(metas, m)] else []
    ensures Scan(metas[..m + 1], q, WithSchema) == Scan(metas[..m], q, WithSchema) +
            if Kept(metas[m], q, WithSchema) then metas[m].blob else ""
  {
    assert metas[..m + 1][..m] == metas[..m];
    assert SectionAt(metas[..m + 1], m) == SectionAt(metas, m);
  }

  lemma {:induction false} KeptSectionsRead(metas: seq<Meta>, q: Query, n: nat)
    requires n <= |metas|
    ensures ReadAll(FileOf(metas), KeptSections(metas[..n], q)) == Scan(metas[..n], q, WithSchema)
  {
    if n > 0 {
      var m := n - 1;
      KeptSectionsRead(metas, q, m);
      KeptSectionsSnoc(metas, q, m);
      SectionReadsBlob(metas, m);
      var front := KeptSections(metas[..m], q);
      if Kept(metas[m], q, WithSchema) && |metas[m].blob| > 0 {
        ReadAllSnoc(FileOf(metas), front, SectionAt(metas, m));
      } else {
        assert KeptSections(metas[..n], q) == front;
      }
    }
  }

  /** Any list of the selected sections sorted by offset reads what the scan gives. */
  lemma SortedSectionsReadScan(idx: Index, metas: seq<Meta>, q: Query, list: seq<Section>)
    requires IsIndexOf(idx, metas)
    requires SortedBy(CompareOffsets, list) && multiset(list) == multiset(SectionSet(idx, q))
    ensures ReadAll(FileOf(metas), list) == Scan(metas, q, WithSchema)
  {
    var chosen := SectionSet(idx, q);
    ListOfSet(list, chosen);
    forall i, j | 0 <= i < j < |list| && list[i].length > 0 && list[j].length > 0
      ensures list[i].offset != list[j].offset
    {
      assert list[i] in list && list[j] in list;
      DistinctOffsets(idx, metas, q, list[i], list[j]);
    }
    NonEmptyOnlyAscending(list);
    KeptSectionsAscending(metas, q);
    forall s ensures s in NonEmptyOnly(list) <==> s in KeptSections(metas, q) {
      NonEmptyOnlyExact(list, s);
      SameSections(idx, metas, q, s);
    }
    StrictlyAscendingUnique(NonEmptyOnly(list), KeptSections(metas, q));
    NonEmptyOnlyReads(FileOf(metas), list);
    KeptSectionsRead(metas, q, |metas|);
    assert metas[..|metas|] == metas;
  }

  lemma ListOfSet(list: seq<Section>, chosen: set<Section>)
    requires multiset(list) == multiset(chosen)
    ensures forall s :: s in list <==> s in chosen
    ensures forall i, j :: 0 <= i < j < |list| ==> list[i] != list[j]
  {
    forall s ensures s in list <==> s in chosen {
      assert s in list <==> s in multiset(list);
    }
    forall i, j | 0 <= i < j < |list| ensures list[i] != list[j] {
      if list[i] == list[j] { RepeatedElementCount(list, i, j); }
    }
  }

  lemma DistinctOffsets(idx: Index, metas: seq<Meta>, q: Query, a: Section, b: Section)
    requires IsIndexOf(idx, metas) && a in SectionSet(idx, q) && b in SectionSet(idx, q)
    requires a != b && a.length > 0 && b.length > 0
    ensures a.offset != b.offset
  {
    var i := SelectedIsSection(idx, metas, q, a);
    var j := SelectedIsSection(idx, metas, q, b);
    if i < j { OffsetsGrow(metas, i, j); } else if j < i { OffsetsGrow(metas, j, i); }
  }

  lemma SameSections(idx: Index, metas: seq<Meta>, q: Query, s: Section)
    requires IsIndexOf(idx, metas)
    ensures s in KeptSections(metas, q) <==> s in SectionSet(idx, q) && s.length > 0
  {
    if s in KeptSections(metas, q) {
      var i := KeptSectionsSound(metas, q, s);
      SelectedExactly(idx, metas, q, s, i);
    }
    if s in SectionSet(idx, q) && s.length > 0 {
      var i := SelectedIsSection(idx, metas, q, s);
      SelectedExactly(idx, metas, q, s, i);
      KeptSectionsComplete(metas, q, s, i);
    }
  }

  method ReadInOrder(file: Bytes, sections: seq<Section>) returns (answer: Bytes)
    ensures answer == ReadAll(file, sections)
  {
    answer := "";
    for i := 0 to |sections|
      invariant answer == ReadAll(file, sections[..i])
    {
      ReadAllSnoc(file, sections[..i], sections[i]);
      assert sections[..i + 1] == sections[..i] + [sections[i]];
      answer := answer + ReadSection(file, sections[i]);
    }
    assert sections[..|sections|] == sections;
  }

  /** Get: the answer to a query is the in-order concatenation of the matching blobs. */
  method Get(file: Bytes, idx: Index, q: Query, ghost metas: seq<Meta>) returns (answer: Bytes)
    requires IsIndexOf(idx, metas) && file == FileOf(metas)
    ensures answer == Scan(metas, q, WithSchema)
  {
    var unsorted := UnsortedList(SectionSet(idx, q));
    var sections := SortFunc(unsorted, CompareOffsets);
    SortedSectionsReadScan(idx, metas, q, sections);
    answer := ReadInOrder(file, sections);
  }

  // ---------- metas without a schema ----------

  lemma {:induction false} ScanLengths(metas: seq<Meta>, q: Query)
    ensures |Scan(metas, q, All)| == |Scan(metas, q, WithSchema)| + |Scan(metas, q, WithoutSchema)|
  {
    if metas != [] { ScanLengths(metas[..|metas| - 1], q); }
  }

  lemma {:induction false} NothingWithoutSchema(metas: seq<Meta>, q: Query)
    ensures |Scan(metas, q, WithoutSchema)| == 0 <==>
            forall m :: m in metas && Kept(m, q, WithoutSchema) ==> m.blob == ""
    ensures |Scan(metas, q, WithoutSchema)| == 0 ==> Scan(metas, q, All) == Scan(metas, q, WithSchema)
  {
    if metas != [] {
      var n := |metas| - 1;
      NothingWithoutSchema(metas[..n], q);
      assert metas == metas[..n] + [metas[n]];
    }
  }

  /** A query without parameters matches everything. */
  lemma {:induction false} ScanOfEverything(metas: seq<Meta>)
    ensures Scan(metas, Query("", "", ""), All) == FileOf(metas)
  {
    if metas != [] { ScanOfEverything(metas[..|metas| - 1]); }
  }

  /**
    The index answers like a plain scan exactly when every matching meta without a schema has
    an empty blob; in particular whenever every meta has a schema.
  */
  lemma AnswerIsPlainScanExactly(metas: seq<Meta>, q: Query)
    ensures Scan(metas, q, WithSchema) == Scan(metas, q, All) <==>
            forall m :: m in metas && Matches(m, q) && m.schema == "" ==> m.blob == ""
  {
    ScanLengths(metas, q);
    NothingWithoutSchema(metas, q);
    assert forall m :: Kept(m, q, WithoutSchema) <==> Matches(m, q) && m.schema == "";
  }
}
