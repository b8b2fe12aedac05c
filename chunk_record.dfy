/** The chunk record written, one per line, to the chunk file. */
module ChunkRecord {
  import opened KotlinStd

  /** One chunk of a document. Every field but `id` and `text` is optional in the record;
      `makeChunks` fills all of them. */
  datatype Chunk = Chunk(
    id: string,
    text: string,
    source: Option<string>,
    section: Option<string>,
    chunk: Option<int>,
    charStart: Option<int>,
    charEnd: Option<int>)

  /** `"%s-%05d".format(docId, cid)`: the document id, a dash and the chunk number padded
      with zeros to five digits, in a default locale whose digits are ASCII. */
  function ChunkId(docId: string, cid: nat): (id: string)
    ensures |id| >= |docId| + 6
    ensures id[..|docId|] == docId && id[|docId|] == '-'
    ensures AllDigits(id[|docId| + 1..]) && DigitsValue(id[|docId| + 1..]) == cid
    ensures cid < 100000 ==> |id| == |docId| + 6
  {
    var r := docId + "-" + Pad5(cid);
    assert r[|docId| + 1..] == Pad5(cid);
    FiveDigits(cid);
    r
  }

  lemma FiveDigits(n: nat)
    ensures n < 100000 ==> |Decimal(n)| <= 5
  {
    if n < 100000 {
      DecimalBelow(n, 5);
    }
  }

  /** A number below `10^d` has at most `d` decimal digits. */
  lemma {:induction false} DecimalBelow(n: nat, d: nat)
    requires 1 <= d && n < Power10(d)
    ensures |Decimal(n)| <= d
    decreases d
  {
    if n >= 10 {
      assert d >= 2;
      DecimalBelow(n / 10, d - 1);
    }
  }

  function Power10(d: nat): (p: nat)
    ensures p >= 1
  {
    if d == 0 then 1 else 10 * Power10(d - 1)
  }

  /** Different chunk numbers of one document get different ids. */
  lemma ChunkIdInjective(docId: string, a: nat, b: nat)
    requires ChunkId(docId, a) == ChunkId(docId, b)
    ensures a == b
  {
  }

  /** Chunk 7 of "guide" is "guide-00007". */
  lemma ChunkIdExample()
    ensures ChunkId("guide", 7) == "guide-00007"
  {
    assert Decimal(7) == "7";
    assert Zeros(4) == "0000";
  }
}
