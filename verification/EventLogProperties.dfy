/** A torn append never costs another record: what is read back is exactly what fully reached the disk. */
module EventLogProperties {
  import opened Wrappers
  import opened EventSnapshot
  import opened EventSnapshotProperties
  import opened EventLog

  lemma {:induction false} OpenTail(bytes: Bytes)
    requires NEWLINE !in bytes
    ensures Lines(bytes) == [] && Tail(bytes) == bytes
  {
    if bytes != [] { assert bytes[LineEnd(bytes, 0) - 1] in bytes; }
  }

  lemma ChompedAppend(a: seq<Bytes>, b: seq<Bytes>)
    ensures Chomped(a + b) == Chomped(a) + Chomped(b)
  {
  }

  /** A newline after an unterminated file closes its tail and adds no entry. */
  lemma RepairKeepsEntries(bytes: Bytes)
    ensures Entries(bytes + Repair(bytes)) == Entries(bytes) && Complete(bytes + Repair(bytes))
  {
    FileSplits(bytes);
    JoinComplete(bytes);
    TailOpen(bytes);
    if Repair(bytes) == [] {
      assert bytes + Repair(bytes) == bytes;
    } else {
      var head, tail := Join(Lines(bytes)), Tail(bytes);
      assert head + [] == head;
      assert tail != [];
      var closed := tail + [NEWLINE];
      ClosedLine(tail);
      assert bytes + [NEWLINE] == head + closed;
      LinesAreLines(bytes);
      JoinLines(Lines(bytes));
      LinesAppend(head, closed);
      ChompedAppend(Lines(bytes), [closed]);
    }
  }

  lemma ClosedLine(text: Bytes)
    requires NEWLINE !in text
    ensures Lines(text + [NEWLINE]) == [text + [NEWLINE]] && Tail(text + [NEWLINE]) == []
    ensures Complete(text + [NEWLINE]) && Chomped([text + [NEWLINE]]) == [text]
  {
    var line := text + [NEWLINE];
    assert forall i :: 0 <= i < |text| ==> line[i] == text[i] && text[i] in text;
    OneLine(line);
    CompleteTail(line);
    assert line[..|line| - 1] == text;
  }

  /** After complete lines, what is appended adds its own entries. */
  lemma EntriesAppend(a: Bytes, b: Bytes)
    requires Complete(a)
    ensures Entries(a + b) == Entries(a) + Entries(b)
  {
    LinesAppend(a, b);
    CompleteTail(a);
    ChompedAppend(Lines(a), Lines(b));
  }

  lemma PieceEntries(line: Bytes, k: nat)
    requires NEWLINE !in line && k <= |line|
    ensures Entries(line[..k]) == if k == 0 then [] else [line[..k]]
    ensures line != [] ==> Entries(line + [NEWLINE]) == [line]
  {
    assert NEWLINE !in line[..k];
    OpenTail(line[..k]);
    ClosedLine(line);
  }

  lemma PartOfLine(line: Bytes, k: nat)
    ensures (if k < |line + [NEWLINE]| then (line + [NEWLINE])[..k] else line + [NEWLINE])
            == if k <= |line| then line[..k] else line + [NEWLINE]
  {
  }

  /** What an append leaves, told from the repaired file. */
  lemma AppendedParts(bytes: Bytes, line: Bytes, written: nat)
    ensures var r := |Repair(bytes)|;
            Appended(bytes, line, written) ==
              if written < r then bytes
              else bytes + Repair(bytes) + if written - r <= |line| then line[..written - r] else line + [NEWLINE]
  {
    var r, data := |Repair(bytes)|, line + [NEWLINE];
    assert Data(bytes, line) == Repair(bytes) + data;
    if written >= r {
      PartOfLine(line, written - r);
      if written < |Data(bytes, line)| {
        assert Data(bytes, line)[..written] == Repair(bytes) + data[..written - r];
      }
    }
  }

  lemma PartEntries(line: Bytes, k: nat)
    requires NEWLINE !in line && line != []
    ensures Entries(if k <= |line| then line[..k] else line + [NEWLINE])
         == if k == 0 then [] else if k < |line| then [line[..k]] else [line]
  {
    PieceEntries(line, if k < |line| then k else |line|);
    assert line[..|line|] == line;
  }

  lemma RepairedEntries(bytes: Bytes, line: Bytes, k: nat)
    requires NEWLINE !in line && line != []
    ensures Entries(bytes + Repair(bytes) + if k <= |line| then line[..k] else line + [NEWLINE])
         == Entries(bytes) + if k == 0 then [] else if k < |line| then [line[..k]] else [line]
  {
    RepairKeepsEntries(bytes);
    EntriesAppend(bytes + Repair(bytes), if k <= |line| then line[..k] else line + [NEWLINE]);
    PartEntries(line, k);
  }

  /** One append, torn or not, adds as one entry of its own what it wrote of the record. */
  lemma AppendedEntries(bytes: Bytes, line: Bytes, written: nat)
    requires NEWLINE !in line && line != []
    ensures var k := Landed(bytes, line, written);
            Entries(Appended(bytes, line, written)) == Entries(bytes) + if k == 0 then [] else [line[..k]]
  {
    var r := |Repair(bytes)|;
    AppendedParts(bytes, line, written);
    if written >= r {
      RepairedEntries(bytes, line, written - r);
      assert line[..|line|] == line;
    }
  }

  lemma {:induction false} ReplayEntries(enc: Record -> Bytes, dec: Bytes -> Parsed, start: Bytes, history: seq<Write>)
    requires AllFaithful(enc, dec, history)
    ensures Entries(Replay(enc, start, history)) == Entries(start) + Pieces(enc, start, history)
  {
    if history != [] {
      var init, last := history[..|history| - 1], history[|history| - 1];
      ReplayEntries(enc, dec, start, init);
      AppendedEntries(Replay(enc, start, init), enc(last.rec), last.written);
    }
  }

  lemma {:induction false} RecordsAppend(dec: Bytes -> Parsed, a: seq<Bytes>, b: seq<Bytes>)
    ensures Records(dec, a + b) == Records(dec, a) + Records(dec, b)
  {
    if b == [] { assert a + b == a; }
    else {
      assert (a + b)[..|a + b| - 1] == a + b[..|b| - 1];
      RecordsAppend(dec, a, b[..|b| - 1]);
    }
  }

  lemma OnePieceRead(enc: Record -> Bytes, dec: Bytes -> Parsed, r: Record, k: nat)
    requires Faithful(enc, dec, r) && k <= |enc(r)|
    ensures Records(dec, if k == 0 then [] else [enc(r)[..k]]) == if k == |enc(r)| then [r] else []
  {
    assert enc(r)[..|enc(r)|] == enc(r);
    if k > 0 {
      var one := [enc(r)[..k]];
      assert one[..0] == [];
      assert Records(dec, one) == Records(dec, []) + (match dec(one[0]) case Record(x) => [x] case _ => []);
    }
  }

  lemma {:induction false} PiecesRead(enc: Record -> Bytes, dec: Bytes -> Parsed, start: Bytes, history: seq<Write>)
    requires AllFaithful(enc, dec, history)
    ensures Records(dec, Pieces(enc, start, history)) == Survivors(enc, start, history)
  {
    if history != [] {
      var init, last := history[..|history| - 1], history[|history| - 1];
      var k := LastLanded(enc, start, history);
      PiecesRead(enc, dec, start, init);
      OnePieceRead(enc, dec, last.rec, k);
      RecordsAppend(dec, Pieces(enc, start, init), if k == 0 then [] else [enc(last.rec)[..k]]);
    }
  }

  /** Reading line by line gives back what was readable at the start and then exactly the records whose
      bytes all reached the disk, in order, after any history of complete and torn appends. */
  lemma LinesReadBack(enc: Record -> Bytes, dec: Bytes -> Parsed, start: Bytes, history: seq<Write>)
    requires AllFaithful(enc, dec, history)
    ensures ReadLines(dec, Replay(enc, start, history)) == ReadLines(dec, start) + Survivors(enc, start, history)
  {
    ReplayEntries(enc, dec, start, history);
    RecordsAppend(dec, Entries(start), Pieces(enc, start, history));
    PiecesRead(enc, dec, start, history);
  }

  /** Reading the file as text gives the same, exactly when no tear cut a character in two; one such tear
      makes the whole read fail. */
  lemma TextReadBack(enc: Record -> Bytes, dec: Bytes -> Parsed, start: Bytes, history: seq<Write>)
    requires AllFaithful(enc, dec, history) && ReadText(dec, start).Some?
    ensures var file := Replay(enc, start, history);
            && (ReadText(dec, file).Some? <==> forall p :: p in Pieces(enc, start, history) ==> !dec(p).BadUtf8?)
            && (ReadText(dec, file).Some? ==>
                  ReadText(dec, file).value == ReadText(dec, start).value + Survivors(enc, start, history))
  {
    LinesReadBack(enc, dec, start, history);
    ReplayEntries(enc, dec, start, history);
    var old_, pieces, all := Entries(start), Pieces(enc, start, history), Entries(Replay(enc, start, history));
    if i :| 0 <= i < |all| && dec(all[i]).BadUtf8? {
      assert forall k :: 0 <= k < |old_| ==> all[k] == old_[k];
      assert i >= |old_|;
      assert pieces[i - |old_|] in pieces;
    }
    if p :| p in pieces && dec(p).BadUtf8? {
      var j :| 0 <= j < |pieces| && pieces[j] == p;
      assert all[|old_| + j] == p;
    }
  }

  lemma WholeLands(before: Bytes, line: Bytes, written: nat)
    requires written > |line|
    ensures Landed(before, line, written) == |line|
  {
    assert |Repair(before)| <= 1;
  }

  function Recs(history: seq<Write>): seq<Record> {
    if history == [] then [] else Recs(history[..|history| - 1]) + [history[|history| - 1].rec]
  }

  /** Appends that are not torn are all read back. */
  lemma {:induction false} WholeAppendsSurvive(enc: Record -> Bytes, start: Bytes, history: seq<Write>)
    requires forall i :: 0 <= i < |history| ==> history[i].written > |enc(history[i].rec)|
    ensures Survivors(enc, start, history) == Recs(history)
  {
    if history != [] {
      var init, last := history[..|history| - 1], history[|history| - 1];
      WholeAppendsSurvive(enc, start, init);
      WholeLands(Replay(enc, start, init), enc(last.rec), last.written);
    }
  }
}
