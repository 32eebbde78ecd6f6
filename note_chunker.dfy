/** Splitting a free-text allele note into the MGI_NoteChunk rows the
    loader writes: consecutive slices of at most 255 characters, numbered
    from 1, that concatenate back to the note. */
module NoteChunker {
  import opened SeqFacts

  /** Width of the MGI_NoteChunk.note column. */
  const ChunkSize: nat := 255

  /** One MGI_NoteChunk row (the created-by and modified-by columns both
      hold `creator`; the load-date columns are not modelled). */
  datatype NoteChunkRow = NoteChunkRow(noteKey: nat, seqNum: nat, text: string, creator: nat)

  /** The slices of `note`, in order. */
  function Chunks(note: string): seq<string>
    decreases |note|
  {
    if |note| == 0 then []
    else if |note| <= ChunkSize then [note]
    else [note[..ChunkSize]] + Chunks(note[ChunkSize..])
  }

  /** Concatenation of slices, in order. */
  function Concat(parts: seq<string>): string
  {
    if |parts| == 0 then "" else parts[0] + Concat(parts[1..])
  }

  /** Reassembling the slices in sequence order reproduces the note. */
  lemma {:induction false} ChunksConcat(note: string)
    ensures Concat(Chunks(note)) == note
    decreases |note|
  {
    if |note| > ChunkSize {
      ChunksConcat(note[ChunkSize..]);
      assert note == note[..ChunkSize] + note[ChunkSize..];
    }
  }

  /** Every slice is non-empty and at most 255 characters long, every
      slice but the last is exactly 255 characters long, and there are
      ceil(|note| / 255) of them (none for an empty note). */
  lemma {:induction false} ChunksShape(note: string)
    ensures |Chunks(note)| == (|note| + ChunkSize - 1) / ChunkSize
    ensures forall i :: 0 <= i < |Chunks(note)| ==> 0 < |Chunks(note)[i]| <= ChunkSize
    ensures forall i :: 0 <= i < |Chunks(note)| - 1 ==> |Chunks(note)[i]| == ChunkSize
    decreases |note|
  {
    if |note| > ChunkSize {
      ChunksShape(note[ChunkSize..]);
      var cs := Chunks(note);
      assert cs == [note[..ChunkSize]] + Chunks(note[ChunkSize..]);
      assert forall i :: 1 <= i < |cs| ==> cs[i] == Chunks(note[ChunkSize..])[i - 1];
    }
  }

  /** The rows written for `note`, numbered from `seqNum` on. */
  function ChunkRowsFrom(noteKey: nat, seqNum: nat, note: string, creator: nat): seq<NoteChunkRow>
    decreases |note|
  {
    if |note| == 0 then []
    else if |note| <= ChunkSize then [NoteChunkRow(noteKey, seqNum, note, creator)]
    else [NoteChunkRow(noteKey, seqNum, note[..ChunkSize], creator)]
         + ChunkRowsFrom(noteKey, seqNum + 1, note[ChunkSize..], creator)
  }

  /** The rows written for one split note, numbered 1, 2, ... */
  function ChunkRows(noteKey: nat, note: string, creator: nat): seq<NoteChunkRow>
  {
    ChunkRowsFrom(noteKey, 1, note, creator)
  }

  /** Row i carries the note key, sequence number `seqNum + i` and slice i. */
  lemma {:induction false} ChunkRowsFromAt(noteKey: nat, seqNum: nat, note: string, creator: nat)
    ensures |ChunkRowsFrom(noteKey, seqNum, note, creator)| == |Chunks(note)|
    ensures forall i :: 0 <= i < |Chunks(note)| ==>
      ChunkRowsFrom(noteKey, seqNum, note, creator)[i] == NoteChunkRow(noteKey, seqNum + i, Chunks(note)[i], creator)
    decreases |note|
  {
    if |note| > ChunkSize {
      ChunkRowsFromAt(noteKey, seqNum + 1, note[ChunkSize..], creator);
    }
  }

  /** What the loader promises of a split note: the rows carry sequence
      numbers 1..n, their texts are the slices (each at most 255 long, all
      but the last exactly 255), and the texts concatenate to the note. */
  lemma ChunkRowsRoundTrip(noteKey: nat, note: string, creator: nat)
    ensures var rows := ChunkRows(noteKey, note, creator);
      && |rows| == (|note| + ChunkSize - 1) / ChunkSize
      && (forall i :: 0 <= i < |rows| ==> rows[i].noteKey == noteKey && rows[i].seqNum == i + 1)
      && (forall i :: 0 <= i < |rows| ==> 0 < |rows[i].text| <= ChunkSize)
      && (forall i :: 0 <= i < |rows| - 1 ==> |rows[i].text| == ChunkSize)
      && Concat(seq(|rows|, i requires 0 <= i < |rows| => rows[i].text)) == note
  {
    var rows := ChunkRows(noteKey, note, creator);
    ChunkRowsFromAt(noteKey, 1, note, creator);
    ChunksShape(note);
    ChunksConcat(note);
    assert seq(|rows|, i requires 0 <= i < |rows| => rows[i].text) == Chunks(note);
  }

  /** A 600-character note gives three slices of 255, 255 and 90 characters. */
  lemma SixHundredCharacterNote(note: string)
    requires |note| == 600
    ensures |Chunks(note)| == 3
    ensures |Chunks(note)[0]| == 255 && |Chunks(note)[1]| == 255 && |Chunks(note)[2]| == 90
  {
    assert Chunks(note) == [note[..255]] + Chunks(note[255..]);
    assert Chunks(note[255..]) == [note[255..][..255]] + Chunks(note[255..][255..]);
    assert Chunks(note[255..][255..]) == [note[255..][255..]];
  }

  /** The loader's slicing loop: while more than 255 characters remain,
      write the first 255 and drop them; then write what is left, if
      anything. */
  method ChunkNote(noteKey: nat, note: string, creator: nat) returns (rows: seq<NoteChunkRow>)
    ensures rows == ChunkRows(noteKey, note, creator)
  {
    var rest := note;
    var seqNum := 1;
    rows := [];
    while |rest| > ChunkSize
      invariant seqNum == |rows| + 1
      invariant rows + ChunkRowsFrom(noteKey, seqNum, rest, creator) == ChunkRows(noteKey, note, creator)
      decreases |rest|
    {
      ghost var row := NoteChunkRow(noteKey, seqNum, rest[..ChunkSize], creator);
      assert ChunkRowsFrom(noteKey, seqNum, rest, creator)
        == [row] + ChunkRowsFrom(noteKey, seqNum + 1, rest[ChunkSize..], creator);
      AppendAssoc(rows, [row], ChunkRowsFrom(noteKey, seqNum + 1, rest[ChunkSize..], creator));
      rows := rows + [NoteChunkRow(noteKey, seqNum, rest[..ChunkSize], creator)];
      rest := rest[ChunkSize..];
      seqNum := seqNum + 1;
    }
    if |rest| > 0 {
      rows := rows + [NoteChunkRow(noteKey, seqNum, rest, creator)];
    }
  }
}
