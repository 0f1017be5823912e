/** When a spilled payload reads back as it was, and how much of it stays in the log. */
module PayloadSpillProperties {
  import opened Wrappers
  import opened PayloadSpill

  // ---- What stays inline ----

  predicate AllShort(v: Json) {
    match v
    case Atom(_) => true
    case Str(s) => !Long(s)
    case List(items) => forall i :: 0 <= i < |items| ==> AllShort(items[i])
    case Obj(fields) => forall i :: 0 <= i < |fields| ==> AllShort(fields[i].value)
  }

  lemma {:induction false} BytesAtMost(s: string)
    ensures Bytes(s) <= 4 * |s|
  {
    if s != "" { BytesAtMost(s[1..]); }
  }

  /** However long the parts are, a reference is well below the threshold. */
  lemma RefIsShort(n: Naming, s: string)
    requires n.Valid()
    ensures !Long(n.Ref(s))
  {
    var a, k, c := SafeFilename(n.alnum, n.agent), SafeFilename(n.alnum, n.kind), SafeFilename(n.alnum, n.callId);
    var name := "events_blobs/" + a + "-" + k + "-" + c + "-" + n.digest(s) + ".txt";
    assert |name| == 13 + |a| + 1 + |k| + 1 + |c| + 1 + 10 + 4 <= 390;
    BytesAtMost(name);
    assert name == n.Ref(s);
  }

  lemma {:induction false} SpilledIsShort(n: Naming, v: Json)
    requires n.Valid()
    ensures AllShort(Spilled(n, v))
  {
    match v
    case Atom(_) =>
    case Str(s) => if Long(s) { RefIsShort(n, s); }
    case List(items) => ItemsAreShort(n, items);
    case Obj(fields) => FieldsAreShort(n, fields);
  }

  lemma {:induction false} ItemsAreShort(n: Naming, items: seq<Json>)
    requires n.Valid()
    ensures forall i :: 0 <= i < |items| ==> AllShort(SpilledItems(n, items)[i])
  {
    if items != [] {
      SpilledIsShort(n, items[0]);
      ItemsAreShort(n, items[1..]);
    }
  }

  lemma {:induction false} FieldsAreShort(n: Naming, fields: seq<Field>)
    requires n.Valid()
    ensures forall i :: 0 <= i < |fields| ==> AllShort(SpilledFields(n, fields)[i].value)
  {
    if fields != [] {
      SpilledIsShort(n, fields[0].value);
      FieldsAreShort(n, fields[1..]);
    }
  }

  // ---- Reading back ----

  /** An object the reader would take for a reference: of one key, `$ref`, with a short string. */
  predicate Lookalike(fields: seq<Field>) {
    |fields| == 1 && fields[0].key == REF && fields[0].value.Str? && !Long(fields[0].value.s)
  }

  /** No lookalike in the value leads to a file. */
  predicate NoLiveRef(d: Disk, v: Json) {
    match v
    case Atom(_) => true
    case Str(_) => true
    case List(items) => forall i :: 0 <= i < |items| ==> NoLiveRef(d, items[i])
    case Obj(fields) =>
      && (Lookalike(fields) ==> d.Text(fields[0].value.s).None?)
      && forall i :: 0 <= i < |fields| ==> NoLiveRef(d, fields[i].value)
  }

  /** Every long string reads back from its file. */
  predicate ReadsBack(d: Disk, n: Naming, strings: seq<string>) {
    forall i :: 0 <= i < |strings| ==> d.Text(n.Ref(strings[i])) == Some(strings[i])
  }

  lemma ReadsBackSplit(d: Disk, n: Naming, a: seq<string>, b: seq<string>)
    ensures ReadsBack(d, n, a + b) <==> ReadsBack(d, n, a) && ReadsBack(d, n, b)
  {
    assert forall i :: 0 <= i < |a| ==> (a + b)[i] == a[i];
    assert forall i :: 0 <= i < |b| ==> (a + b)[|a| + i] == b[i];
  }

  /** Reading back what was spilled gives the value, exactly when its long strings read back from their
      files and nothing in it looks like a reference to some file. */
  lemma {:induction false} ResolvedIs(d: Disk, n: Naming, v: Json)
    ensures Resolved(d, Spilled(n, v)) == v <==> (ReadsBack(d, n, LongStrings(v)) && NoLiveRef(d, v))
    decreases v, 0
  {
    match v
    case Atom(_) =>
    case Str(s) => if Long(s) { LongReadsBack(d, n, s); }
    case List(items) => ResolvedItemsIs(d, n, items);
    case Obj(fields) => ResolvedObjIs(d, n, fields);
  }

  lemma LongReadsBack(d: Disk, n: Naming, s: string)
    requires Long(s)
    ensures Resolved(d, Spilled(n, Str(s))) == Str(s) <==> ReadsBack(d, n, [s])
  {
    var text := d.Text(n.Ref(s));
    assert Resolved(d, Spilled(n, Str(s))) == if text.Some? then Str(text.value) else Spilled(n, Str(s));
    assert ReadsBack(d, n, [s]) <==> d.Text(n.Ref([s][0])) == Some([s][0]);
  }

  lemma {:induction false} ResolvedItemsIs(d: Disk, n: Naming, items: seq<Json>)
    ensures ResolvedItems(d, SpilledItems(n, items)) == items
      <==> (ReadsBack(d, n, ItemStrings(items)) && forall i :: 0 <= i < |items| ==> NoLiveRef(d, items[i]))
    decreases items, 0
  {
    if items != [] {
      ResolvedIs(d, n, items[0]);
      ResolvedItemsIs(d, n, items[1..]);
      ReadsBackSplit(d, n, LongStrings(items[0]), ItemStrings(items[1..]));
      ConsEqual(Resolved(d, Spilled(n, items[0])), ResolvedItems(d, SpilledItems(n, items[1..])), items);
      assert SpilledItems(n, items)[1..] == SpilledItems(n, items[1..]);
      assert forall i :: 0 <= i < |items| ==> items[i] == if i == 0 then items[0] else items[1..][i - 1];
    }
  }

  lemma ConsEqual<T>(head: T, tail: seq<T>, all: seq<T>)
    requires all != []
    ensures [head] + tail == all <==> (head == all[0] && tail == all[1..])
  {
    assert ([head] + tail)[1..] == tail;
    assert all == [all[0]] + all[1..];
  }

  lemma {:induction false} ResolvedFieldsIs(d: Disk, n: Naming, fields: seq<Field>)
    ensures ResolvedFields(d, SpilledFields(n, fields)) == fields
      <==> (ReadsBack(d, n, FieldStrings(fields)) && forall i :: 0 <= i < |fields| ==> NoLiveRef(d, fields[i].value))
    decreases fields, 0
  {
    if fields != [] {
      ResolvedIs(d, n, fields[0].value);
      ResolvedFieldsIs(d, n, fields[1..]);
      ReadsBackSplit(d, n, LongStrings(fields[0].value), FieldStrings(fields[1..]));
      var head := Field(fields[0].key, Resolved(d, Spilled(n, fields[0].value)));
      ConsEqual(head, ResolvedFields(d, SpilledFields(n, fields[1..])), fields);
      assert SpilledFields(n, fields)[1..] == SpilledFields(n, fields[1..]);
      assert forall i :: 0 <= i < |fields| ==> fields[i] == if i == 0 then fields[0] else fields[1..][i - 1];
    }
  }

  lemma {:induction false} ResolvedObjIs(d: Disk, n: Naming, fields: seq<Field>)
    ensures Resolved(d, Spilled(n, Obj(fields))) == Obj(fields)
      <==> (ReadsBack(d, n, FieldStrings(fields)) && NoLiveRef(d, Obj(fields)))
    decreases fields, 1
  {
    var spilled := SpilledFields(n, fields);
    if Lookalike(fields) {
      assert fields == [Field(REF, fields[0].value)] && fields[1..] == [];
      assert spilled == [Field(REF, fields[0].value)] + SpilledFields(n, []);
      assert spilled == fields;
      var text := d.Text(fields[0].value.s);
      assert FieldStrings(fields) == [];
      assert Resolved(d, Obj(fields)) == if text.Some? then Str(text.value) else Obj(fields);
    } else {
      ResolvedFieldsIs(d, n, fields);
      assert !(|spilled| == 1 && spilled[0].key == REF && spilled[0].value.Str?);
    }
  }

  // ---- The files after spilling ----

  lemma {:induction false} NormalHasNoReturn(s: string)
    ensures '\r' !in Normal(s) && ('\r' !in s ==> Normal(s) == s)
    decreases |s|
  {
    if s != "" { NormalHasNoReturn(if s[0] == '\r' && |s| > 1 && s[1] == '\n' then s[2..] else s[1..]); }
  }

  /** A text written to a file of the run's directory. */
  datatype Blob = Blob(path: string, text: string)

  function Put(files: Files, blobs: seq<Blob>): Files
    decreases blobs
  {
    if blobs == [] then files else Put(files[blobs[0].path := blobs[0].text], blobs[1..])
  }

  function Named(n: Naming, strings: seq<string>): (blobs: seq<Blob>)
    ensures |blobs| == |strings|
    ensures forall i :: 0 <= i < |strings| ==> blobs[i] == Blob(n.Ref(strings[i]), strings[i])
  {
    seq(|strings|, i requires 0 <= i < |strings| => Blob(n.Ref(strings[i]), strings[i]))
  }

  lemma {:induction false} WrittenIsPut(files: Files, n: Naming, strings: seq<string>)
    ensures Written(files, n, strings) == Put(files, Named(n, strings))
    decreases strings
  {
    if strings != [] {
      WrittenIsPut(files[n.Ref(strings[0]) := strings[0]], n, strings[1..]);
      assert Named(n, strings)[1..] == Named(n, strings[1..]);
    }
  }

  lemma {:induction false} PutConcat(files: Files, a: seq<Blob>, b: seq<Blob>)
    ensures Put(files, a + b) == Put(Put(files, a), b)
    decreases a
  {
    if a == [] {
      assert a + b == b;
    } else {
      assert (a + b)[1..] == a[1..] + b;
      PutConcat(files[a[0].path := a[0].text], a[1..], b);
    }
  }

  predicate NoReturns(blobs: seq<Blob>) {
    forall i :: 0 <= i < |blobs| ==> '\r' !in blobs[i].text
  }

  /** Different texts get different files. */
  predicate NoClash(blobs: seq<Blob>) {
    forall i, j :: 0 <= i < |blobs| && 0 <= j < |blobs| && blobs[i].path == blobs[j].path ==>
          blobs[i].text == blobs[j].text
  }

  predicate AllRead(d: Disk, blobs: seq<Blob>) {
    forall i :: 0 <= i < |blobs| ==> d.Text(blobs[i].path) == Some(blobs[i].text)
  }

  lemma {:induction false} KeptOrPut(files: Files, blobs: seq<Blob>, path: string)
    requires path in files
    ensures path in Put(files, blobs)
    ensures Put(files, blobs)[path] == files[path] || Blob(path, Put(files, blobs)[path]) in blobs
    decreases blobs
  {
    if blobs != [] { KeptOrPut(files[blobs[0].path := blobs[0].text], blobs[1..], path); }
  }

  /** A file holds the last text put under its name. */
  lemma {:induction false} LastPut(files: Files, blobs: seq<Blob>, b: Blob)
    requires b in blobs
    ensures b.path in Put(files, blobs) && Blob(b.path, Put(files, blobs)[b.path]) in blobs
    decreases blobs
  {
    var next := files[blobs[0].path := blobs[0].text];
    if b in blobs[1..] {
      LastPut(next, blobs[1..], b);
    } else {
      KeptOrPut(next, blobs[1..], b.path);
    }
  }

  /** Every blob leads to its own file. */
  ghost predicate LeadHome(resolve: string -> Option<string>, blobs: seq<Blob>) {
    forall i :: 0 <= i < |blobs| ==> resolve(blobs[i].path) == Some(blobs[i].path)
  }

  lemma PutReadsBack(files: Files, resolve: string -> Option<string>, blobs: seq<Blob>)
    requires LeadHome(resolve, blobs)
    ensures AllRead(Disk(Put(files, blobs), resolve), blobs) <==> NoReturns(blobs) && NoClash(blobs)
  {
    var d := Disk(Put(files, blobs), resolve);
    forall b | b in blobs
      ensures b.path in d.files && Blob(b.path, d.files[b.path]) in blobs
              && d.Text(b.path) == Some(Normal(d.files[b.path]))
    {
      LastPut(files, blobs, b);
    }
    if NoReturns(blobs) && NoClash(blobs) {
      forall i | 0 <= i < |blobs| ensures d.Text(blobs[i].path) == Some(blobs[i].text) {
        var b := blobs[i];
        var j :| 0 <= j < |blobs| && blobs[j] == Blob(b.path, d.files[b.path]);
        assert blobs[j].text == b.text;
        NormalHasNoReturn(b.text);
      }
    }
    if AllRead(d, blobs) {
      forall i | 0 <= i < |blobs| ensures '\r' !in blobs[i].text {
        assert blobs[i] in blobs;
        NormalHasNoReturn(d.files[blobs[i].path]);
      }
    }
  }

  lemma NamedReadsBack(d: Disk, n: Naming, strings: seq<string>)
    ensures ReadsBack(d, n, strings) <==> AllRead(d, Named(n, strings))
  {
  }

  // ---- A series of payloads ----

  datatype Spilling = Spilling(naming: Naming, payload: Json) {
    function Blobs(): seq<Blob> { Named(naming, LongStrings(payload)) }
  }

  /** All that a series of payloads, spilled one after another into the same directory, writes there. */
  function AllBlobs(series: seq<Spilling>): seq<Blob> {
    if series == [] then [] else series[0].Blobs() + AllBlobs(series[1..])
  }

  function FilesAfter(files: Files, series: seq<Spilling>): Files
    decreases series
  {
    if series == [] then files
    else FilesAfter(Written(files, series[0].naming, LongStrings(series[0].payload)), series[1..])
  }

  lemma {:induction false} FilesArePut(files: Files, series: seq<Spilling>)
    ensures FilesAfter(files, series) == Put(files, AllBlobs(series))
    decreases series
  {
    if series != [] {
      var s := series[0];
      WrittenIsPut(files, s.naming, LongStrings(s.payload));
      FilesArePut(Put(files, s.Blobs()), series[1..]);
      PutConcat(files, s.Blobs(), AllBlobs(series[1..]));
    }
  }

  lemma AllReadConcat(d: Disk, a: seq<Blob>, b: seq<Blob>)
    ensures AllRead(d, a + b) <==> AllRead(d, a) && AllRead(d, b)
  {
    assert forall i :: 0 <= i < |a| ==> (a + b)[i] == a[i];
    assert forall i :: 0 <= i < |b| ==> (a + b)[|a| + i] == b[i];
  }

  predicate RoundTrips(d: Disk, s: Spilling) {
    Resolved(d, Spilled(s.naming, s.payload)) == s.payload
  }

  lemma {:induction false} SeriesReads(d: Disk, series: seq<Spilling>)
    ensures (forall i :: 0 <= i < |series| ==> RoundTrips(d, series[i])) <==>
            (AllRead(d, AllBlobs(series)) && forall i :: 0 <= i < |series| ==> NoLiveRef(d, series[i].payload))
  {
    if series != [] {
      var s, rest := series[0], series[1..];
      SeriesReads(d, rest);
      ResolvedIs(d, s.naming, s.payload);
      NamedReadsBack(d, s.naming, LongStrings(s.payload));
      AllReadConcat(d, s.Blobs(), AllBlobs(rest));
      assert forall i :: 0 <= i < |series| ==> series[i] == if i == 0 then s else rest[i - 1];
      assert forall i :: 0 <= i < |rest| ==> rest[i] == series[i + 1];
    }
  }

  /** Payloads spilled one after another into one directory all read back as they were, at the end, exactly
      when no long string has a carriage return, no two different ones share a file name, whichever payloads
      they come from, and no `$ref` object of a payload leads to a file. */
  lemma SeriesRoundTrip(files: Files, resolve: string -> Option<string>, series: seq<Spilling>)
    requires LeadHome(resolve, AllBlobs(series))
    ensures var d, blobs := Disk(FilesAfter(files, series), resolve), AllBlobs(series);
            (forall i :: 0 <= i < |series| ==> RoundTrips(d, series[i])) <==>
            (NoReturns(blobs) && NoClash(blobs) && forall i :: 0 <= i < |series| ==> NoLiveRef(d, series[i].payload))
  {
    FilesArePut(files, series);
    PutReadsBack(files, resolve, AllBlobs(series));
    SeriesReads(Disk(FilesAfter(files, series), resolve), series);
  }

  /** One payload, as it stands in the log right after it was spilled. */
  lemma SpillRoundTrip(files: Files, resolve: string -> Option<string>, n: Naming, payload: Json)
    requires LeadHome(resolve, Named(n, LongStrings(payload)))
    ensures var d := Disk(Written(files, n, LongStrings(payload)), resolve);
            var blobs := Named(n, LongStrings(payload));
            Resolved(d, Spilled(n, payload)) == payload <==>
                  (NoReturns(blobs) && NoClash(blobs) && NoLiveRef(d, payload))
  {
    var strings := LongStrings(payload);
    ResolvedIs(Disk(Written(files, n, strings), resolve), n, payload);
    WrittenIsPut(files, n, strings);
    PutReadsBack(files, resolve, Named(n, strings));
    NamedReadsBack(Disk(Written(files, n, strings), resolve), n, strings);
  }
}
