/**
 * The offset indexers and small helpers behind the aligned-corpus viewer
 * (bleualign.py): newline offsets of a document, the tab-separated index of
 * the aligned file, the reverse index from a document's URL pair to its
 * aligned sentences, `ltrim`, the aligned-file name derivation and the
 * non-storing `lazydict`. Decompressed file contents are given as byte
 * sequences; gzip itself is not modelled.
 */
module Bleualign {
  import opened Base

  newtype byte = x: int | 0 <= x < 256

  const NL: byte := 10
  const TAB: byte := 9

  /** The number of bytes `index_document` asks for per read. */
  const CHUNK: nat := 32768

  function Min(a: int, b: int): int { if a <= b then a else b }

  // ---------------------------------------------------------------- index_document

  /**
   * The position just after every `\n` among the first `k` bytes of `data`,
   * in increasing order.
   */
  function LineEnds(data: seq<byte>, k: nat): (r: seq<nat>)
    requires k <= |data|
    ensures |r| <= k
  {
    if k == 0 then []
    else LineEnds(data, k - 1) + (if data[k - 1] == NL then [k] else [])
  }

  /** Every position in `r` lies just after a `\n` and is at most `hi`. */
  predicate AfterNewlines(data: seq<byte>, r: seq<nat>, hi: nat)
    requires hi <= |data|
  {
    forall j :: 0 <= j < |r| ==> 1 <= r[j] <= hi && data[r[j] - 1] == NL
  }

  predicate Increasing(r: seq<nat>) {
    forall j, j' :: 0 <= j < j' < |r| ==> r[j] < r[j']
  }

  /** Every `\n` among the first `hi` bytes has the position after it in `r`. */
  predicate CoversNewlines(data: seq<byte>, r: seq<nat>, hi: nat)
    requires hi <= |data|
  {
    forall i :: 0 <= i < hi && data[i] == NL ==> i + 1 in r
  }

  lemma {:induction false} LineEndsAfterNewlines(data: seq<byte>, k: nat)
    requires k <= |data|
    ensures AfterNewlines(data, LineEnds(data, k), k)
  {
    if k > 0 {
      LineEndsAfterNewlines(data, k - 1);
    }
  }

  lemma {:induction false} LineEndsIncreasing(data: seq<byte>, k: nat)
    requires k <= |data|
    ensures Increasing(LineEnds(data, k))
  {
    if k > 0 {
      LineEndsIncreasing(data, k - 1);
      LineEndsAfterNewlines(data, k - 1);
    }
  }

  lemma {:induction false} LineEndsCover(data: seq<byte>, k: nat)
    requires k <= |data|
    ensures CoversNewlines(data, LineEnds(data, k), k)
  {
    if k > 0 {
      LineEndsCover(data, k - 1);
      var prev := LineEnds(data, k - 1);
      var r := LineEnds(data, k);
      forall i | 0 <= i < k && data[i] == NL ensures i + 1 in r {
        if i < k - 1 {
          assert i + 1 in prev;
        }
      }
    }
  }

  /**
   * `LineEnds` holds exactly the positions just after a `\n`, each at most
   * `k`, strictly increasing.
   */
  lemma LineEndsExact(data: seq<byte>, k: nat)
    requires k <= |data|
    ensures AfterNewlines(data, LineEnds(data, k), k)
    ensures Increasing(LineEnds(data, k))
    ensures CoversNewlines(data, LineEnds(data, k), k)
  {
    LineEndsAfterNewlines(data, k);
    LineEndsIncreasing(data, k);
    LineEndsCover(data, k);
  }

  /** Bytes without a newline add no line end. */
  lemma {:induction false} LineEndsSkip(data: seq<byte>, a: nat, b: nat)
    requires a <= b <= |data|
    requires forall i :: a <= i < b ==> data[i] != NL
    ensures LineEnds(data, b) == LineEnds(data, a)
    decreases b - a
  {
    if a < b {
      LineEndsSkip(data, a, b - 1);
    }
  }

  /** The offsets `index_document` keeps: a final one equal to the length is dropped. */
  function DropFinal(offsets: seq<nat>, len: nat): seq<nat> {
    if |offsets| > 0 && offsets[|offsets| - 1] == len then offsets[..|offsets| - 1]
    else offsets
  }

  /**
   * `index_document`: reads the decompressed `data` in chunks of `CHUNK`
   * bytes and records, for every `\n`, the absolute position just after it;
   * a final offset at the very end of the data is removed.
   */
  method IndexDocument(data: seq<byte>) returns (offsets: seq<nat>)
    ensures offsets == DropFinal(LineEnds(data, |data|), |data|)
  {
    offsets := [];
    var readOffset := 0;
    while true
      invariant readOffset <= |data|
      invariant offsets == LineEnds(data, readOffset)
      decreases |data| - readOffset
    {
      var chunk := data[readOffset..Min(readOffset + CHUNK, |data|)];
      if |chunk| == 0 {
        break;
      }
      offsets := ScanChunk(data, readOffset, chunk, offsets);
      readOffset := readOffset + |chunk|;
    }
    if |offsets| > 0 && offsets[|offsets| - 1] == readOffset {
      offsets := offsets[..|offsets| - 1];
    }
  }

  /**
   * The inner loop of `index_document`: finds each `\n` of one chunk in turn
   * and appends the absolute position after it.
   */
  method ScanChunk(data: seq<byte>, readOffset: nat, chunk: seq<byte>, offsets0: seq<nat>)
    returns (offsets: seq<nat>)
    requires readOffset + |chunk| <= |data| && chunk == data[readOffset..readOffset + |chunk|]
    requires offsets0 == LineEnds(data, readOffset)
    ensures offsets == LineEnds(data, readOffset + |chunk|)
  {
    offsets := offsets0;
    // `pos` never becomes -1: a failed find yields 0 and ends the scan
    var pos := 0;
    while true
      invariant 0 <= pos <= |chunk|
      invariant offsets == LineEnds(data, readOffset + pos)
      decreases |chunk| - pos
    {
      var next := FindChar(chunk, NL, pos) + 1;
      if next == 0 {
        ChunkRest(data, readOffset, chunk, pos);
        return;
      }
      ChunkNewline(data, readOffset, chunk, pos, next - 1);
      pos := next;
      offsets := offsets + [readOffset + pos];
    }
  }

  /** No `\n` after `pos`: the rest of the chunk adds no line end. */
  lemma ChunkRest(data: seq<byte>, readOffset: nat, chunk: seq<byte>, pos: nat)
    requires readOffset + |chunk| <= |data| && chunk == data[readOffset..readOffset + |chunk|]
    requires pos <= |chunk| && FindChar(chunk, NL, pos) == -1
    ensures LineEnds(data, readOffset + |chunk|) == LineEnds(data, readOffset + pos)
  {
    forall i | readOffset + pos <= i < readOffset + |chunk| ensures data[i] != NL {
      assert data[i] == chunk[i - readOffset];
    }
    LineEndsSkip(data, readOffset + pos, readOffset + |chunk|);
  }

  /** The next `\n` of the chunk, at `q`, adds exactly the line end after it. */
  lemma ChunkNewline(data: seq<byte>, readOffset: nat, chunk: seq<byte>, pos: nat, q: nat)
    requires readOffset + |chunk| <= |data| && chunk == data[readOffset..readOffset + |chunk|]
    requires pos <= |chunk| && FindChar(chunk, NL, pos) == q
    ensures q < |chunk|
    ensures LineEnds(data, readOffset + q + 1) == LineEnds(data, readOffset + pos) + [readOffset + q + 1]
  {
    forall i | readOffset + pos <= i < readOffset + q ensures data[i] != NL {
      assert data[i] == chunk[i - readOffset];
    }
    assert data[readOffset + q] == chunk[q];
    LineEndsSkip(data, readOffset + pos, readOffset + q);
  }

  /**
   * What `index_document` returns, stated without chunks: strictly
   * increasing positions, each just after a `\n` and before the end of the
   * data, and every `\n` that is not the last byte contributes one.
   */
  lemma IndexedOffsets(data: seq<byte>)
    ensures AfterNewlines(data, DropFinal(LineEnds(data, |data|), |data|), |data|)
    ensures forall j :: 0 <= j < |DropFinal(LineEnds(data, |data|), |data|)| ==>
      DropFinal(LineEnds(data, |data|), |data|)[j] < |data|
    ensures Increasing(DropFinal(LineEnds(data, |data|), |data|))
    ensures |data| > 0 ==> CoversNewlines(data, DropFinal(LineEnds(data, |data|), |data|), |data| - 1)
  {
    LineEndsExact(data, |data|);
    DropFinalKeeps(data, LineEnds(data, |data|));
  }

  /** Dropping a final offset equal to the length keeps a prefix, which covers every `\n` but the last byte. */
  lemma DropFinalKeeps(data: seq<byte>, e: seq<nat>)
    requires AfterNewlines(data, e, |data|) && Increasing(e) && CoversNewlines(data, e, |data|)
    ensures AfterNewlines(data, DropFinal(e, |data|), |data|)
    ensures forall j :: 0 <= j < |DropFinal(e, |data|)| ==> DropFinal(e, |data|)[j] < |data|
    ensures Increasing(DropFinal(e, |data|))
    ensures |data| > 0 ==> CoversNewlines(data, DropFinal(e, |data|), |data| - 1)
  {
    DropFinalBelow(data, e);
    if |data| > 0 {
      DropFinalCovers(data, e);
    }
  }

  lemma DropFinalBelow(data: seq<byte>, e: seq<nat>)
    requires AfterNewlines(data, e, |data|) && Increasing(e)
    ensures AfterNewlines(data, DropFinal(e, |data|), |data|)
    ensures forall j :: 0 <= j < |DropFinal(e, |data|)| ==> DropFinal(e, |data|)[j] < |data|
    ensures Increasing(DropFinal(e, |data|))
  {
    if |e| > 0 && e[|e| - 1] == |data| {
      var r := e[..|e| - 1];
      forall j | 0 <= j < |r| ensures r[j] < |data| {
        assert r[j] == e[j] < e[|e| - 1];
      }
    } else {
      forall j | 0 <= j < |e| ensures e[j] < |data| {
        if j < |e| - 1 {
          assert e[j] < e[|e| - 1];
        }
      }
    }
  }

  lemma DropFinalCovers(data: seq<byte>, e: seq<nat>)
    requires |data| > 0 && CoversNewlines(data, e, |data|)
    ensures CoversNewlines(data, DropFinal(e, |data|), |data| - 1)
  {
    if |e| > 0 && e[|e| - 1] == |data| {
      var r := e[..|e| - 1];
      assert e == r + [|data|];
      forall i | 0 <= i < |data| - 1 && data[i] == NL ensures i + 1 in r {
        assert i + 1 in e;
      }
    }
  }

  // ---------------------------------------------------------------- index_document_2

  /** One line of the aligned file with at least two tabs: its offset and first two fields. */
  datatype Entry = Entry(offset: nat, src: seq<byte>, trg: seq<byte>)

  /** The total length of the first `k` lines. */
  function Total(lines: seq<seq<byte>>, k: nat): nat
    requires k <= |lines|
  {
    if k == 0 then 0 else Total(lines, k - 1) + |lines[k - 1]|
  }

  /** The entry a line at offset `pos` yields, if it holds two tabs. */
  function EntryOf(line: seq<byte>, pos: nat): seq<Entry> {
    var p1 := FindChar(line, TAB, 0);
    var p2 := FindChar(line, TAB, p1 + 1);
    if p1 != -1 && p2 != -1 then [Entry(pos, line[..p1], line[p1 + 1..p2])] else []
  }

  /**
   * The entries of the first `k` lines: at most one per line, in file order,
   * none past the end of those lines.
   */
  function Index2(lines: seq<seq<byte>>, k: nat): (es: seq<Entry>)
    requires k <= |lines|
    ensures |es| <= k
    ensures forall i :: 0 <= i < |es| ==> es[i].offset <= Total(lines, k)
    ensures forall i, j :: 0 <= i < j < |es| ==> es[i].offset <= es[j].offset
  {
    if k == 0 then [] else Index2(lines, k - 1) + EntryOf(lines[k - 1], Total(lines, k - 1))
  }

  /**
   * `index_document_2`: walks the lines of the decompressed aligned file,
   * advancing the offset by each line's length, and records the lines with
   * two tabs.
   */
  method IndexDocument2(lines: seq<seq<byte>>) returns (offsets: seq<Entry>)
    ensures offsets == Index2(lines, |lines|)
  {
    offsets := [];
    var pos := 0;
    for k := 0 to |lines|
      invariant pos == Total(lines, k)
      invariant offsets == Index2(lines, k)
    {
      var line := lines[k];
      var posSrc := FindChar(line, TAB, 0);
      var posTrg := FindChar(line, TAB, posSrc + 1);
      if posSrc != -1 && posTrg != -1 {
        offsets := offsets + [Entry(pos, line[..posSrc], line[posSrc + 1..posTrg])];
      }
      pos := pos + |line|;
    }
  }

  /** `line` starts with the field `src`, a tab, the field `trg` and a tab. */
  predicate Fields(line: seq<byte>, src: seq<byte>, trg: seq<byte>) {
    && |src| + |trg| + 2 <= |line|
    && line[..|src| + |trg| + 2] == src + [TAB] + trg + [TAB]
    && !Contains(src, TAB) && !Contains(trg, TAB)
  }

  /** The fields between the first two tabs, at `p1` and `p2`, are what `Fields` describes. */
  lemma FieldsAt(line: seq<byte>, p1: nat, p2: nat)
    requires p1 < p2 < |line| && line[p1] == TAB && line[p2] == TAB
    requires forall j :: 0 <= j < p1 ==> line[j] != TAB
    requires forall j :: p1 < j < p2 ==> line[j] != TAB
    ensures Fields(line, line[..p1], line[p1 + 1..p2])
  {
    var src, trg := line[..p1], line[p1 + 1..p2];
    assert !Contains(src, TAB) by {
      forall j | 0 <= j < |src| ensures src[j] != TAB { assert src[j] == line[j]; }
    }
    assert !Contains(trg, TAB) by {
      forall j | 0 <= j < |trg| ensures trg[j] != TAB { assert trg[j] == line[p1 + 1 + j]; }
    }
    var whole := src + [TAB] + trg + [TAB];
    assert |whole| == p2 + 1;
    forall j | 0 <= j <= p2 ensures line[..p2 + 1][j] == whole[j] {
      if j < p1 {
        assert whole[j] == src[j];
      } else if j == p1 {
      } else if j < p2 {
        assert whole[j] == trg[j - p1 - 1];
      }
    }
  }

  /** What one line contributes: an entry exactly when it has two tabs, holding its first two fields. */
  lemma EntryOfFields(line: seq<byte>, pos: nat)
    ensures |EntryOf(line, pos)| <= 1
    ensures |EntryOf(line, pos)| == 1 <==> Count(line, TAB) >= 2
    ensures forall e :: e in EntryOf(line, pos) ==> e.offset == pos && Fields(line, e.src, e.trg)
  {
    var p1 := FindChar(line, TAB, 0);
    var p2 := FindChar(line, TAB, p1 + 1);
    if p1 != -1 && p2 != -1 {
      FieldsAt(line, p1, p2);
    }
    FindSecond(line, TAB);
  }

  /** `e` is the entry of line `i`: at the total length of the lines before it, with its first two fields. */
  predicate EntryFor(lines: seq<seq<byte>>, i: nat, e: Entry)
    requires i < |lines|
  {
    e.offset == Total(lines, i) && Fields(lines[i], e.src, e.trg)
  }

  /** Every entry in `entries` comes from one of the first `k` lines. */
  predicate FromLines(lines: seq<seq<byte>>, k: nat, entries: seq<Entry>)
    requires k <= |lines|
  {
    forall e :: e in entries ==> exists i :: 0 <= i < k && EntryFor(lines, i, e)
  }

  /**
   * Each entry `index_document_2` records carries the total length of all
   * preceding lines (skipped lines included) and the first two
   * tab-separated fields of its line.
   */
  lemma {:induction false} Index2Sound(lines: seq<seq<byte>>, k: nat)
    requires k <= |lines|
    ensures FromLines(lines, k, Index2(lines, k))
  {
    if k > 0 {
      Index2Sound(lines, k - 1);
      FromLinesStep(lines, k, Index2(lines, k - 1), EntryOf(lines[k - 1], Total(lines, k - 1)));
    }
  }

  /** Entries of the first `k - 1` lines and those of line `k - 1` together come from the first `k` lines. */
  lemma FromLinesStep(lines: seq<seq<byte>>, k: nat, prev: seq<Entry>, last: seq<Entry>)
    requires 0 < k <= |lines|
    requires FromLines(lines, k - 1, prev) && last == EntryOf(lines[k - 1], Total(lines, k - 1))
    ensures FromLines(lines, k, prev + last)
  {
    EntryOfFields(lines[k - 1], Total(lines, k - 1));
    forall e | e in prev + last ensures exists i :: 0 <= i < k && EntryFor(lines, i, e) {
      if e in last {
        assert EntryFor(lines, k - 1, e);
      } else {
        var i :| 0 <= i < k - 1 && EntryFor(lines, i, e);
        assert EntryFor(lines, i, e);
      }
    }
  }

  /** Every line with at least two tabs adds its entry. */
  lemma {:induction false} Index2Complete(lines: seq<seq<byte>>, k: nat)
    requires k <= |lines|
    ensures forall i :: 0 <= i < k && Count(lines[i], TAB) >= 2 ==>
      exists e :: e in Index2(lines, k) && EntryFor(lines, i, e)
  {
    if k > 0 {
      Index2Complete(lines, k - 1);
      EntryOfFields(lines[k - 1], Total(lines, k - 1));
      var last := EntryOf(lines[k - 1], Total(lines, k - 1));
      assert Index2(lines, k) == Index2(lines, k - 1) + last;
      forall i | 0 <= i < k && Count(lines[i], TAB) >= 2
        ensures exists e :: e in Index2(lines, k) && EntryFor(lines, i, e)
      {
        if i == k - 1 {
          assert last[0] in last;
          assert last[0] in Index2(lines, k) && EntryFor(lines, i, last[0]);
        } else {
          var e :| e in Index2(lines, k - 1) && EntryFor(lines, i, e);
          assert e in Index2(lines, k);
        }
      }
    }
  }

  // ---------------------------------------------------------------- lazydict

  /**
   * `lazydict`: a dictionary whose lookup of a missing key answers
   * `factory(key)` without storing it.
   */
  class LazyDict<K(==), V> {
    var contents: map<K, V>
    const factory: K -> V

    constructor (factory: K -> V)
      ensures this.factory == factory && contents == map[]
    {
      this.factory := factory;
      contents := map[];
    }

    /** What a lookup of `key` answers. */
    function Value(key: K): V
      reads this
    {
      if key in contents then contents[key] else factory(key)
    }

    /** `d[key]`: the stored value, or the factory's value for a missing key; the dictionary is unchanged. */
    method Get(key: K) returns (v: V)
      ensures key in contents ==> v == contents[key]
      ensures key !in contents ==> v == factory(key)
    {
      if key in contents {
        v := contents[key];
      } else {
        v := factory(key);
      }
    }

    /** `d[key] = value`. */
    method Put(key: K, value: V)
      modifies this
      ensures contents == old(contents)[key := value]
    {
      contents := contents[key := value];
    }
  }

  // ---------------------------------------------------------------- get_aligned_filename

  const InputSuffix: string := "-bleualign-input.tab.gz"
  const AlignedSuffix: string := "-aligned.gz"

  /** `os.path.join(a, b)` on POSIX: an absolute `b` replaces `a`, otherwise one `/` separates them. */
  function JoinPath(a: string, b: string): (r: string)
    ensures |b| > 0 && b[0] == '/' ==> r == b
    ensures !(|b| > 0 && b[0] == '/') ==>
              && |a| + |b| <= |r| <= |a| + |b| + 1
              && r[..|a|] == a && r[|r| - |b|..] == b
              && (|r| == |a| + |b| <==> |a| == 0 || a[|a| - 1] == '/')
              && (|r| > |a| + |b| ==> r[|a|] == '/')
  {
    if |b| > 0 && b[0] == '/' then b
    else if |a| == 0 || a[|a| - 1] == '/' then a + b
    else a + "/" + b
  }

  /**
   * `get_aligned_filename`: the aligned file next to an input file, under
   * `../aligned/`, if the name holds the input suffix and that file is
   * `present` on disk.
   */
  function GetAlignedFilename(filename: string, present: string -> bool): (r: Option<string>)
    ensures Find(filename, InputSuffix) == -1 ==> r.None?
    ensures r.Some? ==> present(r.value)
  {
    var pos := Find(filename, InputSuffix);
    if pos == -1 then None
    else
      var aligned := JoinPath(JoinPath("..", "aligned"), filename[..pos] + AlignedSuffix);
      if !present(aligned) then None else Some(aligned)
  }

  /**
   * For a name `prefix + InputSuffix + rest` in which `prefix` holds no
   * earlier occurrence of the suffix, the aligned name is
   * `../aligned/<prefix>-aligned.gz` (or `<prefix>-aligned.gz` itself when
   * `prefix` is an absolute path), provided that file is present.
   */
  lemma AlignedFilenameOf(prefix: string, rest: string, present: string -> bool)
    requires forall j :: 0 <= j < |prefix| ==> !OccursAt(prefix + InputSuffix + rest, InputSuffix, j)
    ensures GetAlignedFilename(prefix + InputSuffix + rest, present)
         == if present(AlignedName(prefix)) then Some(AlignedName(prefix)) else None
  {
    FindSuffix(prefix, rest);
    var f := prefix + InputSuffix + rest;
    assert f[..|prefix|] == prefix;
    AlignedJoin(prefix);
  }

  /** The aligned name for an input name whose part before the suffix is `prefix`. */
  function AlignedName(prefix: string): string {
    if |prefix| > 0 && prefix[0] == '/' then prefix + AlignedSuffix
    else "../aligned/" + prefix + AlignedSuffix
  }

  /** The suffix is found right after `prefix` when it does not occur earlier. */
  lemma FindSuffix(prefix: string, rest: string)
    requires forall j :: 0 <= j < |prefix| ==> !OccursAt(prefix + InputSuffix + rest, InputSuffix, j)
    ensures Find(prefix + InputSuffix + rest, InputSuffix) == |prefix|
  {
    var f := prefix + InputSuffix + rest;
    assert f[|prefix|..|prefix| + |InputSuffix|] == InputSuffix;
    assert OccursAt(f, InputSuffix, |prefix|);
  }

  lemma AlignedJoin(prefix: string)
    ensures JoinPath(JoinPath("..", "aligned"), prefix + AlignedSuffix) == AlignedName(prefix)
  {
    assert JoinPath("..", "aligned") == "../aligned";
    assert "../aligned" + "/" + (prefix + AlignedSuffix) == "../aligned/" + prefix + AlignedSuffix;
  }

  // ---------------------------------------------------------------- index_aligned_document

  /** The key an entry is grouped under. */
  function KeyOf(e: Entry): (seq<byte>, seq<byte>) { (e.src, e.trg) }

  /** The offsets of the first `n` entries whose key is `key`, in their original order. */
  function OffsetsWith(index: seq<Entry>, n: nat, key: (seq<byte>, seq<byte>)): seq<nat>
    requires n <= |index|
  {
    if n == 0 then []
    else OffsetsWith(index, n - 1, key) + (if KeyOf(index[n - 1]) == key then [index[n - 1].offset] else [])
  }

  /** `groups` maps exactly the keys among the first `n` entries to their offsets, in order. */
  ghost predicate Grouped(groups: map<(seq<byte>, seq<byte>), seq<nat>>, index: seq<Entry>, n: nat)
    requires n <= |index|
  {
    && (forall key :: key in groups <==> |OffsetsWith(index, n, key)| > 0)
    && (forall key :: key in groups ==> groups[key] == OffsetsWith(index, n, key))
  }

  /** Appending entry `n`'s offset to its key's group keeps the grouping. */
  lemma GroupedStep(groups: map<(seq<byte>, seq<byte>), seq<nat>>, index: seq<Entry>, n: nat)
    requires n < |index| && Grouped(groups, index, n)
    ensures Grouped(groups[KeyOf(index[n]) := (if KeyOf(index[n]) in groups then groups[KeyOf(index[n])] else [])
                                              + [index[n].offset]], index, n + 1)
  {
    var key := KeyOf(index[n]);
    assert OffsetsWith(index, n + 1, key) == OffsetsWith(index, n, key) + [index[n].offset];
    assert forall k :: k != key ==> OffsetsWith(index, n + 1, k) == OffsetsWith(index, n, k);
  }

  /**
   * `index_aligned_document`: no aligned file gives an empty map; otherwise
   * the aligned file's index (looked up in `indexes`) is grouped by URL
   * pair, each pair mapping to its offsets in their original order, and
   * only pairs that occur are keys.
   */
  method IndexAlignedDocument(filename: string, present: string -> bool,
                              indexes: LazyDict<string, seq<Entry>>)
    returns (r: map<(seq<byte>, seq<byte>), seq<nat>>)
    ensures GetAlignedFilename(filename, present).None? ==> r == map[]
    ensures GetAlignedFilename(filename, present).Some? ==>
      Grouped(r, indexes.Value(GetAlignedFilename(filename, present).value),
              |indexes.Value(GetAlignedFilename(filename, present).value)|)
  {
    var aligned := GetAlignedFilename(filename, present);
    if aligned.None? {
      return map[];
    }
    var index := indexes.Get(aligned.value);
    r := map[];
    for i := 0 to |index|
      invariant Grouped(r, index, i)
    {
      GroupedStep(r, index, i);
      var key := (index[i].src, index[i].trg);
      var group := if key in r then r[key] else [];
      r := r[key := group + [index[i].offset]];
    }
  }

  // ---------------------------------------------------------------- ltrim

  /** The number of leading `""` items. */
  function LeadingEmpty(items: seq<string>): (n: nat)
    ensures n <= |items|
    ensures forall i :: 0 <= i < n ==> items[i] == ""
    ensures n == |items| || items[n] != ""
  {
    if |items| > 0 && items[0] == "" then 1 + LeadingEmpty(items[1..]) else 0
  }

  /** `ltrim`: drops the leading empty strings, and nothing else. */
  method LTrim(items: seq<string>) returns (r: seq<string>)
    ensures r == items[LeadingEmpty(items)..]
    ensures |r| == 0 || r[0] != ""
  {
    r := items;
    while |r| > 0 && r[0] == ""
      invariant |r| <= |items| && r == items[|items| - |r|..]
      invariant |items| - |r| <= LeadingEmpty(items)
    {
      r := r[1..];
    }
  }

  /** Trimming what `ltrim` returned removes nothing more. */
  lemma LTrimIdempotent(items: seq<string>)
    ensures LeadingEmpty(items[LeadingEmpty(items)..]) == 0
  {
  }
}
