/**
 * An APG file (APGFile.kt): exactly 65536 control words, written front to back through a cursor,
 * padded after the last written word by `finish`, and (de)serialised as their 16-byte records in
 * index order, with no header.
 */
module ApgFiles {
  import opened Outcomes
  import opened Streams
  import opened ControlWords

  const MAX_CONTROL_WORD: nat := 65536

  /** Size of a serialised file: 65536 records of 16 bytes. */
  const FILE_BYTES: nat := MAX_CONTROL_WORD * SIZE_BYTES

  predicate AllWords(ws: seq<seq<bv8>>)
  {
    forall i | 0 <= i < |ws| :: IsWord(ws[i])
  }

  /** The records of `ws` laid end to end. */
  function Flatten(ws: seq<seq<bv8>>): seq<bv8>
  {
    if ws == [] then [] else Flatten(ws[..|ws| - 1]) + ws[|ws| - 1]
  }

  /** The `i`-th 16-byte record of a byte sequence. */
  function RecordAt(src: seq<bv8>, i: nat): seq<bv8>
    requires SIZE_BYTES * i + SIZE_BYTES <= |src|
  {
    src[SIZE_BYTES * i..SIZE_BYTES * i + SIZE_BYTES]
  }

  /** The words after `finish` with cursor `p`: every word at index `p` or later is padding. */
  function Finished(ws: seq<seq<bv8>>, p: nat): (r: seq<seq<bv8>>)
    ensures |r| == |ws|
    ensures forall i | 0 <= i < |ws| :: r[i] == if i >= p then PADDING_WORD else ws[i]
  {
    if ws == [] then []
    else Finished(ws[..|ws| - 1], p) + [if |ws| - 1 >= p then PADDING_WORD else ws[|ws| - 1]]
  }

  /** The outcome of reading words and the words it leaves. */
  datatype Loaded = Loaded(outcome: Outcome, words: seq<seq<bv8>>)

  /**
   * `readFrom` from word `i` on, with the words before `i` already read from the first
   * `16 * i` bytes of `src`: each word takes the next record, and the first short read ends it.
   */
  function ReadWordsFrom(ws: seq<seq<bv8>>, src: seq<bv8>, i: nat): (r: Loaded)
    requires i <= |ws| && AllWords(ws)
    ensures |r.words| == |ws| && AllWords(r.words)
    ensures forall j | 0 <= j < i :: r.words[j] == ws[j]
    decreases |ws| - i
  {
    if i == |ws| then Loaded(Pass, ws)
    else
      var rest := if SIZE_BYTES * i <= |src| then src[SIZE_BYTES * i..] else [];
      var w := BufferAfterRead(ws[i], rest);
      if |rest| >= SIZE_BYTES then ReadWordsFrom(ws[i := w], src, i + 1)
      else Loaded(Fail(FormatError), ws[i := w])
  }

  // ---------------------------------------------------------------------------------------------
  // Properties of the file layout.

  /** Flattening records of 16 bytes: the length is 16 per record, and record `i` sits at 16 * i. */
  lemma {:induction false} FlattenRecords(ws: seq<seq<bv8>>)
    requires AllWords(ws)
    ensures |Flatten(ws)| == SIZE_BYTES * |ws|
    ensures forall i | 0 <= i < |ws| :: RecordAt(Flatten(ws), i) == ws[i]
  {
    if ws != [] {
      var n := |ws| - 1;
      var init := ws[..n];
      FlattenRecords(init);
      forall i | 0 <= i < |ws|
        ensures RecordAt(Flatten(ws), i) == ws[i]
      {
        if i < n {
          assert RecordAt(Flatten(ws), i) == RecordAt(Flatten(init), i);
        }
      }
    }
  }

  /** One step of `readFrom`: word `i` takes the next record, and the read goes on only if it was whole. */
  lemma ReadWordsStep(ws: seq<seq<bv8>>, src: seq<bv8>, i: nat)
    requires i < |ws| && AllWords(ws) && SIZE_BYTES * i <= |src|
    ensures var w := BufferAfterRead(ws[i], src[SIZE_BYTES * i..]);
      ReadWordsFrom(ws, src, i) ==
        if |src| - SIZE_BYTES * i >= SIZE_BYTES then ReadWordsFrom(ws[i := w], src, i + 1)
        else Loaded(Fail(FormatError), ws[i := w])
  {
  }

  /** Flattening one more record appends its bytes. */
  lemma FlattenSnoc(ws: seq<seq<bv8>>, w: seq<bv8>)
    ensures Flatten(ws + [w]) == Flatten(ws) + w
  {
    assert (ws + [w])[..|ws|] == ws;
  }

  /**
   * Reading a source with at least 16 bytes per remaining word succeeds and gives word `j` the
   * `j`-th record of the source.
   */
  lemma {:induction false} ReadWordsFromFull(ws: seq<seq<bv8>>, src: seq<bv8>, i: nat)
    requires i <= |ws| && AllWords(ws)
    requires |src| >= SIZE_BYTES * |ws|
    ensures ReadWordsFrom(ws, src, i).outcome == Pass
    ensures forall j | i <= j < |ws| :: ReadWordsFrom(ws, src, i).words[j] == RecordAt(src, j)
    decreases |ws| - i
  {
    if i < |ws| {
      var next := ws[i := RecordAt(src, i)];
      ReadWholeRecord(ws, src, i);
      ReadWordsFromFull(next, src, i + 1);
      var r := ReadWordsFrom(next, src, i + 1);
      forall j | i <= j < |ws|
        ensures r.words[j] == RecordAt(src, j)
      {
        if j == i {
          assert r.words[i] == next[i];
        }
      }
    }
  }

  /** With a whole record left, word `i` becomes that record and the read goes on. */
  lemma ReadWholeRecord(ws: seq<seq<bv8>>, src: seq<bv8>, i: nat)
    requires i < |ws| && AllWords(ws)
    requires SIZE_BYTES * i + SIZE_BYTES <= |src|
    ensures AllWords(ws[i := RecordAt(src, i)])
    ensures ReadWordsFrom(ws, src, i) == ReadWordsFrom(ws[i := RecordAt(src, i)], src, i + 1)
  {
    var rest := src[SIZE_BYTES * i..];
    assert BufferAfterRead(ws[i], rest) == RecordAt(src, i) by {
      assert BufferAfterRead(ws[i], rest) == rest[..SIZE_BYTES];
    }
  }

  /** Reading a source with fewer bytes than the remaining words need fails with a FormatError. */
  lemma {:induction false} ReadWordsFromShort(ws: seq<seq<bv8>>, src: seq<bv8>, i: nat)
    requires i <= |ws| && AllWords(ws)
    requires SIZE_BYTES * i <= |src| < SIZE_BYTES * |ws|
    ensures ReadWordsFrom(ws, src, i).outcome == Fail(FormatError)
    decreases |ws| - i
  {
    var rest := src[SIZE_BYTES * i..];
    var next := ws[i := BufferAfterRead(ws[i], rest)];
    if |rest| >= SIZE_BYTES {
      assert ReadWordsFrom(ws, src, i) == ReadWordsFrom(next, src, i + 1);
      ReadWordsFromShort(next, src, i + 1);
    } else {
      assert ReadWordsFrom(ws, src, i) == Loaded(Fail(FormatError), next);
    }
  }

  /** `readFrom` succeeds exactly on a source of at least one file's worth of records. */
  lemma ReadWordsCases(ws: seq<seq<bv8>>, src: seq<bv8>)
    requires AllWords(ws)
    ensures ReadWordsFrom(ws, src, 0).outcome == Pass <==> |src| >= SIZE_BYTES * |ws|
    ensures ReadWordsFrom(ws, src, 0).outcome.Fail? ==> ReadWordsFrom(ws, src, 0).outcome.error == FormatError
    ensures ReadWordsFrom(ws, src, 0).outcome == Pass ==>
      forall j | 0 <= j < |ws| :: ReadWordsFrom(ws, src, 0).words[j] == RecordAt(src, j)
  {
    if |src| >= SIZE_BYTES * |ws| {
      ReadWordsFromFull(ws, src, 0);
    } else {
      ReadWordsFromShort(ws, src, 0);
    }
  }

  /** Reading back what `writeTo` wrote, from any prior words, restores every word. */
  lemma WriteReadRoundTrip(ws: seq<seq<bv8>>, before: seq<seq<bv8>>, later: seq<bv8>)
    requires AllWords(ws) && AllWords(before) && |before| == |ws|
    ensures ReadWordsFrom(before, Flatten(ws) + later, 0) == Loaded(Pass, ws)
  {
    var src := Flatten(ws) + later;
    FlattenRecords(ws);
    ReadWordsFromFull(before, src, 0);
    var r := ReadWordsFrom(before, src, 0);
    forall j | 0 <= j < |ws|
      ensures r.words[j] == ws[j]
    {
      assert RecordAt(src, j) == RecordAt(Flatten(ws), j);
    }
  }

  /** `finish` pads the tail, keeps the head, and a second `finish` changes nothing. */
  lemma FinishedIdempotent(ws: seq<seq<bv8>>, p: nat)
    ensures Finished(Finished(ws, p), p) == Finished(ws, p)
    ensures forall i | p <= i < |ws| :: IsPaddingWord(Finished(ws, p)[i])
  {
  }

  // ---------------------------------------------------------------------------------------------

  class APGFile {
    /** `private val words = Array(MAX_CONTROL_WORD) { ControlWord() }` */
    const words: array<ControlWord>
    /** `val size: Int = words.size` */
    const size: nat
    /** The write cursor: the index of the next word `setControlWord` resets. */
    var pointer: nat

    /** Exactly 65536 distinct words, each owning its own 16-byte buffer. */
    ghost predicate Valid()
      reads this, words
    {
      && words.Length == MAX_CONTROL_WORD
      && size == words.Length
      && (forall i | 0 <= i < words.Length :: words[i].Valid())
      && (forall i, j | 0 <= i < j < words.Length :: words[i] != words[j])
      && (forall i, j | 0 <= i < j < words.Length :: words[i].buffer != words[j].buffer)
    }

    /** The buffers the file's words own: everything its methods may change besides the cursor. */
    ghost function Buffers(): set<array<bv8>>
      reads words
    {
      set i | 0 <= i < words.Length :: words[i].buffer
    }

    /** The bytes of words `0..n`, in order. */
    ghost function WordsPrefix(n: nat): (ws: seq<seq<bv8>>)
      reads words, Buffers()
      requires n <= words.Length
      ensures |ws| == n
      ensures forall i | 0 <= i < n :: ws[i] == words[i].buffer[..]
    {
      if n == 0 then [] else WordsPrefix(n - 1) + [words[n - 1].buffer[..]]
    }

    /** The bytes of every word, in index order (what `iterator()` walks over). */
    ghost function Words(): (ws: seq<seq<bv8>>)
      reads this, words, Buffers()
      requires Valid()
      ensures |ws| == MAX_CONTROL_WORD && AllWords(ws)
      ensures forall i | 0 <= i < MAX_CONTROL_WORD :: ws[i] == words[i].buffer[..]
    {
      WordsPrefix(words.Length)
    }

    /** A new file: 65536 fresh all-zero words (not padding, no terminator) and the cursor at 0. */
    constructor ()
      ensures Valid() && fresh(words) && fresh(Buffers())
      ensures size == MAX_CONTROL_WORD && pointer == 0
      ensures forall i | 0 <= i < MAX_CONTROL_WORD :: words[i].buffer[..] == ZERO_WORD
    {
      var first := new ControlWord();
      var ws := new ControlWord[MAX_CONTROL_WORD](_ => first);
      for i := 0 to MAX_CONTROL_WORD
        invariant forall j | 0 <= j < i :: fresh(ws[j].buffer) && ws[j].Valid()
        invariant forall j | 0 <= j < i :: ws[j].buffer[..] == ZERO_WORD
        invariant forall j, k | 0 <= j < k < i :: ws[j] != ws[k] && ws[j].buffer != ws[k].buffer
      {
        var w := new ControlWord();
        ws[i] := w;
      }
      words := ws;
      size := ws.Length;
      pointer := 0;
    }

    /**
     * `setControlWord(block)`: the cursor moves on first; then the word it pointed at is reset to
     * the active state and the block runs on it. At the cursor's limit the array access throws.
     */
    method SetControlWord(block: seq<FieldUpdate>) returns (r: Outcome)
      requires Valid()
      modifies this, Buffers()
      ensures Valid() && pointer == old(pointer) + 1
      ensures old(pointer) >= MAX_CONTROL_WORD ==> r == Fail(CapacityError)
      ensures old(pointer) < MAX_CONTROL_WORD ==>
        Applied(r, words[old(pointer)].buffer[..]) == ApplyUpdates(RESET_WORD, block)
      ensures forall i | 0 <= i < MAX_CONTROL_WORD && i != old(pointer) ::
        words[i].buffer[..] == old(words[i].buffer[..])
    {
      var p := pointer;
      pointer := pointer + 1;
      if p >= words.Length {
        return Fail(CapacityError);
      }
      var w := words[p];
      w.SetPadding(false);
      r := w.ApplyAll(block);
    }

    /** `finish()`: every word from the cursor to the end becomes padding. */
    method Finish()
      requires Valid()
      modifies Buffers()
      ensures forall i | 0 <= i < MAX_CONTROL_WORD ::
        words[i].buffer[..] == if i >= pointer then PADDING_WORD else old(words[i].buffer[..])
      ensures Words() == Finished(old(Words()), pointer)
    {
      var i := pointer;
      while i < words.Length
        invariant forall j | 0 <= j < words.Length ::
          words[j].buffer[..] == if pointer <= j < i then PADDING_WORD else old(words[j].buffer[..])
      {
        words[i].SetPadding(true);
        i := i + 1;
      }
    }

    /** `get(index)`: the word itself; an index outside the array throws. */
    method Get(index: int) returns (r: Result<ControlWord>)
      requires Valid()
      ensures 0 <= index < MAX_CONTROL_WORD ==> r == Ok(words[index])
      ensures !(0 <= index < MAX_CONTROL_WORD) ==> r == Err(IndexError)
    {
      if 0 <= index < words.Length {
        r := Ok(words[index]);
      } else {
        r := Err(IndexError);
      }
    }

    /** `writeTo(outputStream)`: every word's 16 bytes, in index order. */
    method WriteTo(output: OutputStream)
      requires Valid()
      modifies output
      ensures output.data == old(output.data) + Flatten(Words())
      ensures |output.data| == |old(output.data)| + FILE_BYTES
    {
      ghost var all := Words();
      for i := 0 to words.Length
        invariant output.data == old(output.data) + Flatten(all[..i])
      {
        assert words[i].buffer[..] == all[i];
        words[i].WriteTo(output);
        assert all[..i + 1] == all[..i] + [all[i]];
        FlattenSnoc(all[..i], all[i]);
      }
      assert all[..words.Length] == all;
      assert Words() == all;
      FlattenRecords(all);
    }

    /**
     * `readFrom(inputStream)`: each word in turn reads its 16 bytes; the first short read throws,
     * leaving the words before it read and that word partly overwritten. The cursor is untouched.
     */
    method ReadFrom(input: InputStream) returns (r: Outcome)
      requires Valid() && input.Valid()
      modifies Buffers(), input
      ensures input.Valid() && pointer == old(pointer)
      ensures Loaded(r, Words()) == ReadWordsFrom(old(Words()), input.data[old(input.position)..], 0)
      ensures r == Pass ==> input.position == old(input.position) + FILE_BYTES
    {
      ghost var src := input.data[input.position..];
      ghost var start := input.position;
      ghost var initial := Words();
      ghost var cur := initial;
      for i := 0 to words.Length
        invariant input.Valid() && input.position == start + SIZE_BYTES * i
        invariant |cur| == MAX_CONTROL_WORD && AllWords(cur) && Words() == cur
        invariant ReadWordsFrom(cur, src, i) == ReadWordsFrom(initial, src, 0)
      {
        assert input.data[input.position..] == src[SIZE_BYTES * i..];
        r := ReadWordAt(i, input);
        ReadWordsStep(cur, src, i);
        cur := cur[i := BufferAfterRead(cur[i], src[SIZE_BYTES * i..])];
        if r.Fail? {
          return;
        }
      }
      r := Pass;
    }

    /** One word's share of `readFrom`: word `i` reads its record, and no other word changes. */
    method ReadWordAt(i: nat, input: InputStream) returns (r: Outcome)
      requires Valid() && input.Valid() && i < MAX_CONTROL_WORD
      modifies words[i].buffer, input
      ensures input.Valid()
      ensures input.position == old(input.position) + Min(SIZE_BYTES, old(input.Remaining()))
      ensures Words() == old(Words())[i := BufferAfterRead(old(Words())[i], input.data[old(input.position)..])]
      ensures r == if old(input.Remaining()) >= SIZE_BYTES then Pass else Fail(FormatError)
    {
      ghost var before := Words();
      r := words[i].ReadFrom(input);
      forall j | 0 <= j < MAX_CONTROL_WORD && j != i
        ensures words[j].buffer[..] == before[j]
      {
        assert words[j].buffer != words[i].buffer;
      }
    }
  }

  /** From a fresh file, 65536 `setControlWord` calls succeed and the next one fails. */
  method FillFreshFile() returns (successes: nat, overflow: Outcome)
    ensures successes == MAX_CONTROL_WORD
    ensures overflow == Fail(CapacityError)
  {
    var file := new APGFile();
    successes := 0;
    for k := 0 to MAX_CONTROL_WORD
      invariant file.Valid() && fresh(file.Buffers())
      invariant file.pointer == k && successes == k
    {
      var r := file.SetControlWord([]);
      if r == Pass {
        successes := successes + 1;
      }
    }
    overflow := file.SetControlWord([]);
  }
}
