/**
 * Per-gene parsing and record building (get_promoter.py:27, 32, 59-70, 77):
 * the sequence response is split into its header line and its body, the
 * body is normalised to the gene's strand, and one FASTA record, one
 * coordinate row and one alignment row are built from the result.
 */
module Records {
  import opened Wrappers
  import opened Text
  import opened Dna
  import opened Decimal
  import opened Promoter

  /** The header line of a sequence response and its body with the line breaks removed. */
  datatype SequenceResponse = SequenceResponse(header: string, forward: string)

  /** Unpacking `split('\n', 1)` into two names fails when the text holds no newline (Python's ValueError). */
  datatype ParseError = NotEnoughValuesToUnpack

  /**
   * `sequence_header, sequence_forward = text.split('\n', 1)` followed by
   * `sequence_forward.replace('\n', '')`.
   */
  function ParseResponse(text: string): (r: Result<SequenceResponse, ParseError>)
    ensures r.Success? <==> '\n' in text
    ensures r.Success? ==>
      var h := r.value.header;
      && |h| < |text|
      && '\n' !in h
      && text == h + "\n" + text[|h| + 1..]
      && '\n' !in r.value.forward
      && r.value.forward == RemoveAll(text[|h| + 1..], '\n')
  {
    var parts := SplitOnce(text, '\n');
    if |parts| != 2 then Failure(NotEnoughValuesToUnpack)
    else Success(SequenceResponse(parts[0], RemoveAll(parts[1], '\n')))
  }

  /** A response whose header has no newline is parsed back into that header and the joined body lines. */
  lemma ParseResponseOfLines(header: string, bodyLines: seq<string>)
    requires '\n' !in header
    requires forall i :: 0 <= i < |bodyLines| ==> '\n' !in bodyLines[i]
    ensures ParseResponse(header + "\n" + Join(bodyLines, "\n"))
      == Success(SequenceResponse(header, Join(bodyLines, "")))
  {
    ParseResponseOf(header, Join(bodyLines, "\n"));
    JoinRemoveNewlines(bodyLines);
  }

  lemma ParseResponseOf(header: string, rest: string)
    requires '\n' !in header
    ensures ParseResponse(header + "\n" + rest) == Success(SequenceResponse(header, RemoveAll(rest, '\n')))
  {
    SplitFastaRecord(header, rest);
  }

  lemma {:induction false} JoinRemoveNewlines(ls: seq<string>)
    requires forall i :: 0 <= i < |ls| ==> '\n' !in ls[i]
    ensures RemoveAll(Join(ls, "\n"), '\n') == Join(ls, "")
  {
    if |ls| == 1 {
      RemoveAllAbsent(ls[0], '\n');
    } else if |ls| > 1 {
      JoinRemoveNewlines(ls[1..]);
      RemoveAllAppend(ls[0] + "\n", Join(ls[1..], "\n"), '\n');
      RemoveAllAppend(ls[0], "\n", '\n');
      RemoveAllAbsent(ls[0], '\n');
      assert RemoveAll("\n", '\n') == [];
    }
  }

  /**
   * The sequence written to the FASTA file: the reverse complement of the
   * forward body exactly when the strand is -1, the body itself otherwise.
   */
  function NormalisedSequence(forward: string, strand: int): (s: string)
    ensures |s| == |forward|
    ensures strand == -1 ==> ReverseComplement(s) == forward
    ensures strand != -1 ==> s == forward
  {
    if strand == -1 then
      ReverseComplementInvolution(forward);
      ReverseComplement(forward)
    else forward
  }

  /** Python's `s[1:]`: everything after the first character, empty for an empty string. */
  function DropFirst(s: string): (r: string)
    ensures |r| == if s == [] then 0 else |s| - 1
    ensures s != [] ==> s == [s[0]] + r
  {
    if s == [] then [] else s[1..]
  }

  /** `'>{} | {}'.format(gene_name, sequence_header[1:])`. */
  function MergedHeader(geneName: string, header: string): (h: string)
    ensures |h| == |geneName| + 4 + |DropFirst(header)|
    ensures h[0] == '>' && h[1..|geneName| + 1] == geneName
    ensures h[|geneName| + 1..|geneName| + 4] == " | "
    ensures h[|geneName| + 4..] == DropFirst(header)
    ensures '\n' !in geneName && '\n' !in header ==> '\n' !in h
  {
    ">" + geneName + " | " + DropFirst(header)
  }

  /** `'{}\n{}'.format(merged_header, sequence)`: a two-line FASTA record. */
  function FastaRecord(mergedHeader: string, sequence: string): (r: string)
    ensures |r| == |mergedHeader| + 1 + |sequence| && r[|mergedHeader|] == '\n'
    ensures r[..|mergedHeader|] == mergedHeader && r[|mergedHeader| + 1..] == sequence
  {
    mergedHeader + "\n" + sequence
  }

  /** A record whose header has no newline splits back, at its first newline, into header and sequence. */
  lemma SplitFastaRecord(mergedHeader: string, sequence: string)
    requires '\n' !in mergedHeader
    ensures SplitOnce(FastaRecord(mergedHeader, sequence), '\n') == [mergedHeader, sequence]
  {
    var rec := FastaRecord(mergedHeader, sequence);
    FindFirstAfter(mergedHeader, '\n', sequence);
    assert rec[..|mergedHeader|] == mergedHeader;
    assert rec[|mergedHeader| + 1..] == sequence;
  }

  /** The column names `writer.writeheader()` writes first to the coordinate table. */
  const CsvColumns: seq<string> := ["gene_name", "promoter_start", "promoter_end", "gene_start", "gene_end", "strand"]

  /** The column names written first to the alignment file. */
  const SamColumns: seq<string> :=
    ["QNAME", "FLAG", "RNAME", "POS", "MAPQ", "CIGAR", "RNEXT", "PNEXT", "TLEN", "SEQ", "QUAL"]

  /**
   * The coordinate-table row for one gene, its fields in `CsvColumns` order;
   * integer fields are written with `str`, so each reads back as its value.
   */
  function CsvRow(geneName: string, promoter: Interval, rec: GeneRecord): (row: seq<string>)
    ensures |row| == |CsvColumns| && row[0] == geneName
    ensures IsNumeral(row[1]) && Canonical(row[1]) && ParseInt(row[1]) == promoter.start
    ensures IsNumeral(row[2]) && Canonical(row[2]) && ParseInt(row[2]) == promoter.end
    ensures IsNumeral(row[3]) && Canonical(row[3]) && ParseInt(row[3]) == rec.start
    ensures IsNumeral(row[4]) && Canonical(row[4]) && ParseInt(row[4]) == rec.end
    ensures IsNumeral(row[5]) && Canonical(row[5]) && ParseInt(row[5]) == rec.strand
  {
    ParseIntToString(promoter.start);
    ParseIntToString(promoter.end);
    ParseIntToString(rec.start);
    ParseIntToString(rec.end);
    ParseIntToString(rec.strand);
    [geneName, IntToString(promoter.start), IntToString(promoter.end),
     IntToString(rec.start), IntToString(rec.end), IntToString(rec.strand)]
  }

  /**
   * The 11-field alignment row for one gene: the merged header as QNAME,
   * the region as RNAME, the position as POS, the forward body as SEQ and
   * fixed values everywhere else.
   */
  function SamRow(mergedHeader: string, seqRegionName: string, pos: int, forward: string): (row: seq<string>)
    ensures |row| == |SamColumns|
    ensures row[0] == mergedHeader && row[2] == seqRegionName && row[9] == forward
    ensures row[1] == "0" && row[4] == "255" && row[5] == "1000M"
    ensures row[6] == "*" && row[7] == "0" && row[8] == "0" && row[10] == "*"
    ensures IsNumeral(row[3]) && Canonical(row[3]) && ParseInt(row[3]) == pos
  {
    ParseIntToString(pos);
    [mergedHeader, "0", seqRegionName, IntToString(pos), "255", "1000M", "*", "0", "0", forward, "*"]
  }

  /** The FASTA file: the records joined with single newlines (`'\n'.join(sequences)`). */
  function FastaFile(records: seq<string>): string
  {
    Join(records, "\n")
  }

  /**
   * A non-empty FASTA file whose headers and sequences hold no newline reads
   * back, line by line, as header, sequence, header, sequence, ... in order.
   */
  lemma FastaFileLines(records: seq<string>, headers: seq<string>, seqs: seq<string>)
    requires |records| == |headers| == |seqs| > 0
    requires forall i :: 0 <= i < |records| ==> records[i] == FastaRecord(headers[i], seqs[i])
    requires forall i :: 0 <= i < |headers| ==> '\n' !in headers[i] && '\n' !in seqs[i]
    ensures Lines(FastaFile(records)) == Interleave(headers, seqs)
  {
    JoinPairs(records, headers, seqs);
    InterleaveAvoids(headers, seqs, '\n');
    LinesOfJoin(Interleave(headers, seqs));
  }

  /** What one processed gene adds to the three outputs, with the two lines of its FASTA record. */
  datatype GeneRows = GeneRows(mergedHeader: string, sequence: string, csvRow: seq<string>, samRow: seq<string>)
  {
    function Fasta(): string
    {
      FastaRecord(mergedHeader, sequence)
    }
  }

  /** The FASTA file of the records of several genes reads back as their header and sequence lines, in order. */
  lemma RowsFastaLines(gs: seq<GeneRows>, records: seq<string>)
    requires |gs| == |records| > 0
    requires forall i :: 0 <= i < |gs| ==>
      records[i] == gs[i].Fasta() && '\n' !in gs[i].mergedHeader && '\n' !in gs[i].sequence
    ensures var lines := Lines(FastaFile(records));
      && |lines| == 2 * |gs|
      && forall i :: 0 <= i < |gs| ==> lines[2 * i] == gs[i].mergedHeader && lines[2 * i + 1] == gs[i].sequence
  {
    var headers := seq(|gs|, i requires 0 <= i < |gs| => gs[i].mergedHeader);
    var seqs := seq(|gs|, i requires 0 <= i < |gs| => gs[i].sequence);
    FastaFileLines(records, headers, seqs);
  }

  /**
   * The body of the loop once both answers are in (get_promoter.py:61-77):
   * the strand-normalised sequence, the merged header, the coordinate row
   * with the interval computed before the fetch, and the alignment row with
   * its position recomputed from the record.
   */
  function BuildRows(geneName: string, rec: GeneRecord, resp: SequenceResponse): GeneRows
  {
    var header := MergedHeader(geneName, resp.header);
    GeneRows(
      header,
      NormalisedSequence(resp.forward, rec.strand),
      CsvRow(geneName, PromoterInterval(rec.start, rec.end, rec.strand), rec),
      SamRow(header, rec.seqRegionName, SamPosition(rec.start, rec.end, rec.strand), resp.forward))
  }

  /**
   * The rows of one gene agree with each other: both tables have their full
   * width, the alignment row's QNAME is the FASTA header, its POS field is
   * the coordinate row's promoter_start, the window read back from the
   * coordinate row is 1000 bases wide and lies just outside the gene, and
   * the FASTA sequence is the alignment row's forward sequence,
   * reverse-complemented exactly when the strand field reads -1.
   */
  ghost predicate RowsAgree(geneName: string, g: GeneRows)
  {
    && |g.csvRow| == |CsvColumns| && |g.samRow| == |SamColumns|
    && IsNumeral(g.csvRow[1]) && IsNumeral(g.csvRow[2]) && IsNumeral(g.csvRow[3])
    && IsNumeral(g.csvRow[4]) && IsNumeral(g.csvRow[5])
    && g.csvRow[0] == geneName
    && g.samRow[0] == g.mergedHeader && |g.mergedHeader| > 0 && g.mergedHeader[0] == '>'
    && g.samRow[3] == g.csvRow[1]
    && ParseInt(g.csvRow[2]) - ParseInt(g.csvRow[1]) + 1 == 1000
    && (ParseInt(g.csvRow[5]) == 1 ==> ParseInt(g.csvRow[2]) + 1 == ParseInt(g.csvRow[3]))
    && (ParseInt(g.csvRow[5]) != 1 ==> ParseInt(g.csvRow[1]) == ParseInt(g.csvRow[4]) + 1)
    && |g.sequence| == |g.samRow[9]|
    && (if ParseInt(g.csvRow[5]) == -1 then ReverseComplement(g.sequence) else g.sequence) == g.samRow[9]
  }

  lemma BuildRowsAgree(geneName: string, rec: GeneRecord, resp: SequenceResponse)
    ensures RowsAgree(geneName, BuildRows(geneName, rec, resp))
  {
    var g := BuildRows(geneName, rec, resp);
    var pos := SamPosition(rec.start, rec.end, rec.strand);
    assert g.samRow[3] == IntToString(pos);
    assert g.csvRow[1] == IntToString(PromoterInterval(rec.start, rec.end, rec.strand).start);
  }

  /** A response body without newlines gives a sequence line without newlines. */
  lemma BuildRowsLines(geneName: string, rec: GeneRecord, resp: SequenceResponse)
    requires '\n' !in resp.forward
    ensures var g := BuildRows(geneName, rec, resp);
      '\n' !in g.sequence && ('\n' !in geneName && '\n' !in resp.header ==> '\n' !in g.mergedHeader)
  {
    ReverseComplementKeepsOthers(resp.forward, '\n');
  }
}
