/** The search of nested FHIR R4 Questionnaire items by `linkId`
    (`extractItemFromQuestionnaireItems` in src/index.ts). */
module QuestionnaireSearch {
  import opened Wrappers

  /** A Questionnaire item: its `linkId` and its nested `item` list.  An
      absent list is the empty one: the search treats the two alike. */
  datatype Item = Item(linkId: string, items: seq<Item>)

  /** `extractItemFromQuestionnaireItems(items, linkId)`: each item in turn is
      returned if its linkId matches, else its nested items are searched and
      a match there is returned, else the search goes on with the next
      item. */
  function Find(items: seq<Item>, linkId: string): Option<Item>
    decreases items
  {
    if items == [] then None
    else if items[0].linkId == linkId then Some(items[0])
    else
      match Find(items[0].items, linkId)
      case Some(found) => Some(found)
      case None => Find(items[1..], linkId)
  }

  /** The items of a forest in pre-order: an item before its nested items,
      earlier siblings first. */
  function PreOrder(items: seq<Item>): seq<Item>
    decreases items
  {
    if items == [] then []
    else [items[0]] + PreOrder(items[0].items) + PreOrder(items[1..])
  }

  /** The first item of `s` with the given linkId. */
  function FirstWith(s: seq<Item>, linkId: string): (r: Option<Item>)
    ensures r.Some? ==> r.value.linkId == linkId && r.value in s
    ensures r.None? <==> forall k :: 0 <= k < |s| ==> s[k].linkId != linkId
  {
    if s == [] then None
    else if s[0].linkId == linkId then Some(s[0])
    else FirstWith(s[1..], linkId)
  }

  /** What `FirstWith` returns is at an index before which no item matches. */
  lemma {:induction false} FirstWithIsFirst(s: seq<Item>, linkId: string) returns (k: nat)
    requires FirstWith(s, linkId).Some?
    ensures k < |s| && s[k] == FirstWith(s, linkId).value
    ensures forall j :: 0 <= j < k ==> s[j].linkId != linkId
  {
    if s[0].linkId == linkId {
      k := 0;
    } else {
      var k' := FirstWithIsFirst(s[1..], linkId);
      k := k' + 1;
      forall j | 0 < j < k
        ensures s[j].linkId != linkId
      {
        assert s[j] == s[1..][j - 1];
      }
    }
  }

  /** Looking in `a + b` is looking in `a`, then, if nothing was found, in `b`. */
  lemma {:induction false} FirstWithAppend(a: seq<Item>, b: seq<Item>, linkId: string)
    ensures FirstWith(a + b, linkId) ==
            if FirstWith(a, linkId).Some? then FirstWith(a, linkId) else FirstWith(b, linkId)
    decreases |a|
  {
    if a == [] {
      assert a + b == b;
    } else {
      assert (a + b)[0] == a[0];
      assert (a + b)[1..] == a[1..] + b;
      FirstWithAppend(a[1..], b, linkId);
    }
  }

  /** The search returns the first matching item in pre-order. */
  lemma {:induction false} FindIsFirstInPreOrder(items: seq<Item>, linkId: string)
    ensures Find(items, linkId) == FirstWith(PreOrder(items), linkId)
    decreases items
  {
    if items != [] {
      var head := items[0];
      FindIsFirstInPreOrder(head.items, linkId);
      FindIsFirstInPreOrder(items[1..], linkId);
      var pre := PreOrder(items);
      assert pre == [head] + (PreOrder(head.items) + PreOrder(items[1..]));
      FirstWithAppend([head], PreOrder(head.items) + PreOrder(items[1..]), linkId);
      FirstWithAppend(PreOrder(head.items), PreOrder(items[1..]), linkId);
      assert FirstWith([head], linkId) == (if head.linkId == linkId then Some(head) else None);
    }
  }

  /** Only an item with the requested linkId is ever returned, it is one of
      the items of the forest, and nothing is returned exactly when no item
      of the forest, at any depth, has that linkId. */
  lemma FindSound(items: seq<Item>, linkId: string)
    ensures Find(items, linkId).Some? ==>
              Find(items, linkId).value.linkId == linkId && Find(items, linkId).value in PreOrder(items)
    ensures Find(items, linkId).None? <==>
              forall k :: 0 <= k < |PreOrder(items)| ==> PreOrder(items)[k].linkId != linkId
  {
    FindIsFirstInPreOrder(items, linkId);
  }
}

/** The evaluation of an and/or tree of keyword patterns against a text
    (`applyRegex` in src/index.ts). */
module KeywordMatch {
  /** A keyword expression: a pattern, or an object that may carry an `or`
      list and an `and` list. */
  datatype Keywords =
    | Pattern(regex: string)
    | Group(or: Operands, and: Operands)

  /** A member of a keyword object that is either missing or holds a list of
      expressions. */
  datatype Operands = Absent | Present(list: seq<Keywords>)

  /** Whether the pattern (compiled with the flags `gim`) finds a match in
      the input: the regular-expression engine, given as a parameter. */
  type Matcher = (string, string) -> bool

  /** `applyRegex(expression, input)`: a pattern is tested against the input;
      an `or` list is checked first, then an `and` list; an object with
      neither is false. */
  function ApplyRegex(e: Keywords, input: string, matches: Matcher): bool
    decreases e, 1
  {
    match e
    case Pattern(regex) => matches(regex, input)
    case Group(or, and) =>
      if or.Present? then AnyMatch(e, 0, input, matches)
      else if and.Present? then EveryMatch(e, 0, input, matches)
      else false
  }

  /** `expression.or.some(...)` over the `or` list from index `i` on. */
  function AnyMatch(e: Keywords, i: nat, input: string, matches: Matcher): bool
    requires e.Group? && e.or.Present? && i <= |e.or.list|
    decreases e, 0, |e.or.list| - i
  {
    if i == |e.or.list| then false
    else
      assert e.or.list[i] in e.or.list;
      ApplyRegex(e.or.list[i], input, matches) || AnyMatch(e, i + 1, input, matches)
  }

  /** `expression.and.every(...)` over the `and` list from index `i` on. */
  function EveryMatch(e: Keywords, i: nat, input: string, matches: Matcher): bool
    requires e.Group? && e.and.Present? && i <= |e.and.list|
    decreases e, 0, |e.and.list| - i
  {
    if i == |e.and.list| then true
    else
      assert e.and.list[i] in e.and.list;
      ApplyRegex(e.and.list[i], input, matches) && EveryMatch(e, i + 1, input, matches)
  }

  lemma {:induction false} AnyMatchExists(e: Keywords, i: nat, input: string, matches: Matcher)
    requires e.Group? && e.or.Present? && i <= |e.or.list|
    ensures AnyMatch(e, i, input, matches) <==>
            exists k :: i <= k < |e.or.list| && ApplyRegex(e.or.list[k], input, matches)
    decreases |e.or.list| - i
  {
    if i < |e.or.list| {
      AnyMatchExists(e, i + 1, input, matches);
    }
  }

  lemma {:induction false} EveryMatchAll(e: Keywords, i: nat, input: string, matches: Matcher)
    requires e.Group? && e.and.Present? && i <= |e.and.list|
    ensures EveryMatch(e, i, input, matches) <==>
            forall k :: i <= k < |e.and.list| ==> ApplyRegex(e.and.list[k], input, matches)
    decreases |e.and.list| - i
  {
    if i < |e.and.list| {
      EveryMatchAll(e, i + 1, input, matches);
    }
  }

  /** An `or` object holds iff one of its expressions holds, whatever its
      `and` list says; an `and` object without `or` holds iff all of its
      expressions hold; so an empty `or` is false and an empty `and` is true;
      an object with neither list is false. */
  lemma ApplyRegexMeaning(e: Keywords, input: string, matches: Matcher)
    requires e.Group?
    ensures e.or.Present? ==>
              (ApplyRegex(e, input, matches) <==> exists k :: 0 <= k < |e.or.list| && ApplyRegex(e.or.list[k], input, matches))
    ensures e.or.Absent? && e.and.Present? ==>
              (ApplyRegex(e, input, matches) <==> forall k :: 0 <= k < |e.and.list| ==> ApplyRegex(e.and.list[k], input, matches))
    ensures e.or.Absent? && e.and.Absent? ==> !ApplyRegex(e, input, matches)
  {
    if e.or.Present? {
      AnyMatchExists(e, 0, input, matches);
    } else if e.and.Present? {
      EveryMatchAll(e, 0, input, matches);
    }
  }
}

/** How `PatientFile.readFiles` (src/index.ts) turns the files of a patient's
    directory into records: text notes cut into chunks, FHIR Bundles split
    into their entries. */
module PatientRecords {
  import opened Wrappers

  /** The length of a note chunk. */
  const ChunkSize: nat := 10000

  /** A parsed JSON document, as far as `readFiles` looks into it: `null`, an
      object with the `resourceType`, `entry` and `resource` members it may
      have (the rest of it abstracted as `rest`), or any other value. */
  datatype Json =
    | Null
    | Object(resourceType: Option<string>, entry: Option<seq<Json>>, resource: Option<Json>, rest: string)
    | Other(source: string)

  /** What the record holds: a piece of a note, or a FHIR value (an entry
      without a `resource` gives `None`). */
  datatype Content = Text(text: string) | Fhir(value: Option<Json>)

  datatype Kind = Note | FhirResource

  /** One element of the `ehr` list. */
  datatype EhrRecord = EhrRecord(filename: string, part: nat, kind: Kind, content: Content)

  /** One entry of the directory listing, in the order the listing gives,
      with what `readFileSync` did on it: the text read, or the error it
      threw (a subdirectory, a file that cannot be opened). */
  datatype File = File(name: string, content: Result<string, string>)

  /** Why `readFiles` stops: an entry of the listing cannot be read, the
      file is not valid JSON, or a member of `null` is read. */
  datatype Failure = ReadError(message: string) | SyntaxError(message: string) | NullMember

  /** `JSON.parse`, given as a parameter. */
  type JsonParser = string -> Result<Json, string>

  predicate EndsWith(s: string, suffix: string)
  {
    |suffix| <= |s| && s[|s| - |suffix|..] == suffix
  }

  predicate IsNoteFile(name: string)
  {
    EndsWith(name, ".md") || EndsWith(name, ".txt")
  }

  function Min(a: int, b: int): int { if a <= b then a else b }

  /** The note records from offset `from` on: a chunk of `ChunkSize`
      characters (fewer for the last) every `ChunkSize` characters, each
      with its offset as `part`. */
  function NoteChunks(name: string, content: string, from: nat): seq<EhrRecord>
    decreases |content| - from
  {
    if from >= |content| then []
    else [EhrRecord(name, from, Note, Text(content[from..Min(from + ChunkSize, |content|)]))] +
         NoteChunks(name, content, from + ChunkSize)
  }

  /** The texts of note records, one after the other. */
  function NoteText(rs: seq<EhrRecord>): string
  {
    if rs == [] then ""
    else (if rs[0].content.Text? then rs[0].content.text else "") + NoteText(rs[1..])
  }

  /** The chunks of a note put back together are the note; each is a
      non-empty piece of at most `ChunkSize` characters, the `j`th at offset
      `from + j * ChunkSize`; there are as many as `ChunkSize` fits into the
      rest of the note, rounded up, so an empty note gives none. */
  lemma {:induction false} NoteChunksMeaning(name: string, content: string, from: nat)
    requires from <= |content|
    ensures NoteText(NoteChunks(name, content, from)) == content[from..]
    ensures |NoteChunks(name, content, from)| == (|content| - from + ChunkSize - 1) / ChunkSize
    ensures forall j :: 0 <= j < |NoteChunks(name, content, from)| ==>
              var r := NoteChunks(name, content, from)[j];
              r == EhrRecord(name, from + j * ChunkSize, Note, r.content) &&
              r.content.Text? && 1 <= |r.content.text| <= ChunkSize
    decreases |content| - from
  {
    var rs := NoteChunks(name, content, from);
    if from < |content| {
      var next := Min(from + ChunkSize, |content|);
      var rest := NoteChunks(name, content, next);
      if from + ChunkSize < |content| {
        NoteChunksMeaning(name, content, from + ChunkSize);
        assert content[from..] == content[from..next] + content[next..];
      } else {
        assert content[from..next] == content[from..];
      }
      assert rs[1..] == NoteChunks(name, content, from + ChunkSize);
      forall j | 0 < j < |rs|
        ensures rs[j] == EhrRecord(name, from + j * ChunkSize, Note, rs[j].content)
      {
        assert rs[j] == rs[1..][j - 1];
        assert from + ChunkSize + (j - 1) * ChunkSize == from + j * ChunkSize;
      }
    }
  }

  /** The records of the entries `entries[..i]` of a Bundle, the `k`th with
      `part` equal to `k`, and the failure if one of them is `null`. */
  function EntryRecords(name: string, entries: seq<Json>, i: nat): (seq<EhrRecord>, Option<Failure>)
    requires i <= |entries|
  {
    if i == 0 then ([], None)
    else
      var (done, failure) := EntryRecords(name, entries, i - 1);
      if failure.Some? then (done, failure)
      else match entries[i - 1]
        case Null => (done, Some(NullMember))
        case Object(_, _, resource, _) => (done + [EhrRecord(name, i - 1, FhirResource, Fhir(resource))], None)
        case Other(_) => (done + [EhrRecord(name, i - 1, FhirResource, Fhir(None))], None)
  }

  /** The records one entry of the listing gives and the failure that stops
      the reading, if any: every entry is read first, whatever its name, and
      a failed read fails; then a note is cut into chunks; a JSON file that
      is a Bundle with an `entry` list gives one record per entry, any other
      JSON document one record with `part` 0; JSON that does not parse, or
      `null`, fails; any other file gives nothing. */
  function FileRecords(file: File, parse: JsonParser): (seq<EhrRecord>, Option<Failure>)
  {
    if file.content.Err? then ([], Some(ReadError(file.content.error)))
    else ContentRecords(file.name, file.content.value, parse)
  }

  /** The records of an entry that was read, by the extension of its name. */
  function ContentRecords(name: string, content: string, parse: JsonParser): (seq<EhrRecord>, Option<Failure>)
  {
    if IsNoteFile(name) then (NoteChunks(name, content, 0), None)
    else if EndsWith(name, ".json") then
      match parse(content)
      case Err(message) => ([], Some(SyntaxError(message)))
      case Ok(doc) =>
        if doc.Null? then ([], Some(NullMember))
        else if doc.Object? && doc.resourceType == Some("Bundle") && doc.entry.Some? then
          EntryRecords(name, doc.entry.value, |doc.entry.value|)
        else ([EhrRecord(name, 0, FhirResource, Fhir(Some(doc)))], None)
    else ([], None)
  }

  /** The records of the files `files[..k]`, read in order, up to the first
      failure. */
  function ReadAll(files: seq<File>, parse: JsonParser, k: nat): (seq<EhrRecord>, Option<Failure>)
    requires k <= |files|
  {
    if k == 0 then ([], None)
    else
      var (done, failure) := ReadAll(files, parse, k - 1);
      if failure.Some? then (done, failure)
      else
        var (more, stop) := FileRecords(files[k - 1], parse);
        (done + more, stop)
  }

  /** A Bundle with an `entry` list of valid entries gives exactly one
      record per entry, in order, with the index as `part` and the entry's
      resource as content. */
  lemma {:induction false} EntryRecordsMeaning(name: string, entries: seq<Json>, i: nat)
    requires i <= |entries|
    requires forall k :: 0 <= k < |entries| ==> !entries[k].Null?
    ensures EntryRecords(name, entries, i).1 == None
    ensures |EntryRecords(name, entries, i).0| == i
    ensures forall k :: 0 <= k < i ==>
              EntryRecords(name, entries, i).0[k] ==
                EhrRecord(name, k, FhirResource, Fhir(if entries[k].Object? then entries[k].resource else None))
  {
    if i > 0 {
      EntryRecordsMeaning(name, entries, i - 1);
      var done := EntryRecords(name, entries, i - 1).0;
      var all := EntryRecords(name, entries, i).0;
      forall k | 0 <= k < i - 1
        ensures all[k] == done[k]
      {
      }
    }
  }

  /** Every record read comes from a note or JSON file, carries that file's
      name and is a note exactly when the file is a note file. */
  lemma {:induction false} ReadAllOrigin(files: seq<File>, parse: JsonParser, k: nat)
    requires k <= |files|
    ensures forall r :: r in ReadAll(files, parse, k).0 ==>
              exists f :: f in files[..k] && f.name == r.filename &&
                          (IsNoteFile(f.name) || EndsWith(f.name, ".json")) &&
                          (r.kind == Note <==> IsNoteFile(f.name))
  {
    if k > 0 {
      ReadAllOrigin(files, parse, k - 1);
      var (done, failure) := ReadAll(files, parse, k - 1);
      var f := files[k - 1];
      assert files[..k - 1] <= files[..k];
      assert f in files[..k];
      if failure.None? {
        var more := FileRecords(f, parse).0;
        FileRecordsOrigin(f, parse);
        forall r | r in done + more
          ensures exists g :: g in files[..k] && g.name == r.filename &&
                              (IsNoteFile(g.name) || EndsWith(g.name, ".json")) &&
                              (r.kind == Note <==> IsNoteFile(g.name))
        {
          if r in done {
            var g :| g in files[..k - 1] && g.name == r.filename &&
                     (IsNoteFile(g.name) || EndsWith(g.name, ".json")) &&
                     (r.kind == Note <==> IsNoteFile(g.name));
            assert g in files[..k];
          } else {
            assert r in more;
          }
        }
      }
    }
  }

  /** The records of one file all carry its name; they are notes exactly
      when it is a note file; an entry that cannot be read fails, whatever
      its name, with nothing pushed; a file that was read and is neither a
      note nor JSON gives nothing and does not fail. */
  lemma FileRecordsOrigin(f: File, parse: JsonParser)
    ensures forall r :: r in FileRecords(f, parse).0 ==>
              r.filename == f.name && (IsNoteFile(f.name) || EndsWith(f.name, ".json")) &&
              (r.kind == Note <==> IsNoteFile(f.name))
    ensures f.content.Err? ==> FileRecords(f, parse) == ([], Some(ReadError(f.content.error)))
    ensures f.content.Ok? && !IsNoteFile(f.name) && !EndsWith(f.name, ".json") ==> FileRecords(f, parse) == ([], None)
  {
    if f.content.Err? {
    } else if IsNoteFile(f.name) {
      NoteChunksOrigin(f.name, f.content.value, 0);
    } else if EndsWith(f.name, ".json") {
      match parse(f.content.value)
      case Err(_) =>
      case Ok(doc) =>
        if doc.Object? && doc.resourceType == Some("Bundle") && doc.entry.Some? {
          EntryRecordsOrigin(f.name, doc.entry.value, |doc.entry.value|);
        }
    }
  }

  lemma {:induction false} NoteChunksOrigin(name: string, content: string, from: nat)
    ensures forall r :: r in NoteChunks(name, content, from) ==> r.filename == name && r.kind == Note
    decreases |content| - from
  {
    if from < |content| {
      NoteChunksOrigin(name, content, from + ChunkSize);
    }
  }

  lemma {:induction false} EntryRecordsOrigin(name: string, entries: seq<Json>, i: nat)
    requires i <= |entries|
    ensures forall r :: r in EntryRecords(name, entries, i).0 ==> r.filename == name && r.kind == FhirResource
  {
    if i > 0 {
      EntryRecordsOrigin(name, entries, i - 1);
    }
  }

  /** A patient's record: the records read from the files of its directory.
      `failure` is what the constructor's `readFiles` threw, if anything: in
      that case the source produces no object, and `ehr` here holds only the
      records pushed before the throw. */
  class PatientFile {
    const dir: string
    var ehr: seq<EhrRecord>
    var failure: Option<Failure>

    /** The constructor reads the directory: `files` is its listing, with
        what reading each entry gave; the failure that `readFiles` throws is
        kept in `failure`. */
    constructor(dir: string, files: seq<File>, parse: JsonParser)
      ensures this.dir == dir
      ensures ehr == ReadAll(files, parse, |files|).0
      ensures failure == ReadAll(files, parse, |files|).1
    {
      this.dir := dir;
      ehr := [];
      failure := None;
      new;
      failure := ReadFiles(files, parse);
    }

    /** `readFiles`: the records of the files are appended to `ehr`, up to
        and including the file that fails, if one does; then the failure is
        returned. */
    method ReadFiles(files: seq<File>, parse: JsonParser) returns (failure: Option<Failure>)
      modifies this
      ensures ehr == old(ehr) + ReadAll(files, parse, |files|).0
      ensures failure == ReadAll(files, parse, |files|).1
    {
      failure := None;
      var k := 0;
      while k < |files|
        invariant 0 <= k <= |files|
        invariant failure == ReadAll(files, parse, k).1 == None
        invariant ehr == old(ehr) + ReadAll(files, parse, k).0
      {
        ghost var done := ReadAll(files, parse, k).0;
        failure := ReadFile(files[k], parse);
        assert ReadAll(files, parse, k + 1) == (done + FileRecords(files[k], parse).0, failure);
        AppendAssocRecords(old(ehr), done, FileRecords(files[k], parse).0);
        k := k + 1;
        if failure.Some? {
          ReadAllStops(files, parse, k, |files|);
          return;
        }
      }
    }

    /** The body of the loop of `readFiles` for one entry: it is read
        first, and a failed read stops; then notes are chunked, JSON files
        split, other files skipped. */
    method ReadFile(file: File, parse: JsonParser) returns (failure: Option<Failure>)
      modifies this
      ensures ehr == old(ehr) + FileRecords(file, parse).0
      ensures failure == FileRecords(file, parse).1
    {
      if file.content.Err? {
        assert ehr == ehr + [];
        return Some(ReadError(file.content.error));
      }
      var content := file.content.value;
      failure := None;
      if IsNoteFile(file.name) {
        PushNote(file.name, content);
      } else if EndsWith(file.name, ".json") {
        failure := PushJson(file.name, content, parse);
      } else {
        assert ehr == ehr + [];
      }
    }

    /** The loop over the offsets of a note, pushing one chunk each time. */
    method PushNote(name: string, content: string)
      modifies this
      ensures ehr == old(ehr) + NoteChunks(name, content, 0)
    {
      var i := 0;
      while i < |content|
        invariant ehr + NoteChunks(name, content, i) == old(ehr) + NoteChunks(name, content, 0)
        decreases |content| - i
      {
        var chunk := EhrRecord(name, i, Note, Text(content[i..Min(i + ChunkSize, |content|)]));
        assert NoteChunks(name, content, i) == [chunk] + NoteChunks(name, content, i + ChunkSize);
        ehr := ehr + [chunk];
        i := i + ChunkSize;
      }
      assert NoteChunks(name, content, i) == [];
      assert ehr + [] == ehr;
    }

    /** The JSON branch: one record per Bundle entry, or one for the whole
        document. */
    method PushJson(name: string, content: string, parse: JsonParser) returns (failure: Option<Failure>)
      requires !IsNoteFile(name) && EndsWith(name, ".json")
      modifies this
      ensures ehr == old(ehr) + ContentRecords(name, content, parse).0
      ensures failure == ContentRecords(name, content, parse).1
    {
      var parsed := parse(content);
      if parsed.Err? {
        return Some(SyntaxError(parsed.error));
      }
      var doc := parsed.value;
      if doc.Null? {
        return Some(NullMember);
      }
      if doc.Object? && doc.resourceType == Some("Bundle") && doc.entry.Some? {
        var entries := doc.entry.value;
        var i := 0;
        failure := None;
        while i < |entries|
          invariant 0 <= i <= |entries|
          invariant EntryRecords(name, entries, i).1 == None
          invariant ehr == old(ehr) + EntryRecords(name, entries, i).0
        {
          var entry := entries[i];
          if entry.Null? {
            EntryRecordsStop(name, entries, i + 1, |entries|);
            return Some(NullMember);
          }
          var resource := if entry.Object? then entry.resource else None;
          var record := EhrRecord(name, i, FhirResource, Fhir(resource));
          AppendAssocRecords(old(ehr), EntryRecords(name, entries, i).0, [record]);
          ehr := ehr + [record];
          i := i + 1;
        }
      } else {
        ehr := ehr + [EhrRecord(name, 0, FhirResource, Fhir(Some(doc)))];
        failure := None;
      }
    }
  }

  lemma AppendAssocRecords(a: seq<EhrRecord>, b: seq<EhrRecord>, c: seq<EhrRecord>)
    ensures (a + b) + c == a + (b + c)
  {
  }

  /** Once a file fails, no later file is read. */
  lemma {:induction false} ReadAllStops(files: seq<File>, parse: JsonParser, k: nat, j: nat)
    requires 0 < k <= j <= |files|
    requires ReadAll(files, parse, k).1.Some?
    ensures ReadAll(files, parse, j) == ReadAll(files, parse, k)
    decreases j
  {
    if j > k {
      ReadAllStops(files, parse, k, j - 1);
    }
  }

  /** An entry of the listing that cannot be read ends the reading with
      its error, whatever its name, keeping the records read before it. */
  lemma ReadErrorStops(files: seq<File>, parse: JsonParser, k: nat)
    requires k < |files| && files[k].content.Err?
    requires ReadAll(files, parse, k).1 == None
    ensures ReadAll(files, parse, |files|) == (ReadAll(files, parse, k).0, Some(ReadError(files[k].content.error)))
  {
    var done := ReadAll(files, parse, k).0;
    var stop := Some(ReadError(files[k].content.error));
    assert FileRecords(files[k], parse) == ([], stop);
    assert done + [] == done;
    assert ReadAll(files, parse, k + 1) == (done, stop);
    ReadAllStops(files, parse, k + 1, |files|);
  }

  /** Once an entry is `null`, no later entry gives a record. */
  lemma {:induction false} EntryRecordsStop(name: string, entries: seq<Json>, i: nat, j: nat)
    requires 0 < i <= j <= |entries|
    requires EntryRecords(name, entries, i).1.Some?
    ensures EntryRecords(name, entries, j) == EntryRecords(name, entries, i)
    decreases j
  {
    if j > i {
      EntryRecordsStop(name, entries, i, j - 1);
    }
  }
}
