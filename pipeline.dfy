/**
 * The per-gene loop of `get_promoter_sequence` (get_promoter.py:19-80).
 * The two remote calls are answered in advance: each gene comes with the
 * outcome of its symbol lookup and the outcome of its region-sequence
 * request. The method records, for each gene whose lookup succeeded, the
 * region request it sends (`Promoter.PromoterQuery` of its record). A failed call (a
 * non-success HTTP status) aborts the whole run, as the uncaught exception
 * does.
 */
module Pipeline {
  import opened Wrappers
  import opened Text
  import opened Dna
  import opened Decimal
  import opened Promoter
  import opened Records

  /** A non-success HTTP status from the service. */
  datatype HttpError = HttpError(status: int)

  /** One requested gene with the service's answers to its two requests. */
  datatype GeneInput = GeneInput(
    geneName: string,
    lookup: Result<GeneRecord, HttpError>,
    sequence: Result<string, HttpError>)

  /** Why a run stopped early. */
  datatype RunError =
    | UnknownSpecies(commonName: string)            // KeyError on SPECIES_DICT
    | LookupFailed(gene: string, cause: HttpError)   // raise_for_status on the lookup
    | SequenceFailed(gene: string, cause: HttpError) // raise_for_status on the sequence fetch
    | MalformedSequence(gene: string)                // ValueError unpacking the response

  /**
   * One iteration of the loop (get_promoter.py:37-77). It succeeds exactly
   * when both requests succeed and the sequence response holds a newline.
   * Otherwise it reports the first of these that went wrong, naming the gene
   * and, for a failed request, carrying that request's status.
   */
  function ProcessGene(input: GeneInput): (r: Result<GeneRows, RunError>)
    ensures r.Success? <==>
      input.lookup.Success? && input.sequence.Success? && '\n' in input.sequence.value
    ensures r.Failure? ==> !r.error.UnknownSpecies? && r.error.gene == input.geneName
    ensures r.Failure? && r.error.LookupFailed? <==> input.lookup.Failure?
    ensures r.Failure? && r.error.SequenceFailed? <==> input.lookup.Success? && input.sequence.Failure?
    ensures r.Failure? && r.error.MalformedSequence? <==>
      input.lookup.Success? && input.sequence.Success? && '\n' !in input.sequence.value
    ensures r.Failure? && r.error.LookupFailed? ==> r.error.cause == input.lookup.error
    ensures r.Failure? && r.error.SequenceFailed? ==> r.error.cause == input.sequence.error
  {
    match input.lookup
    case Failure(e) => Failure(LookupFailed(input.geneName, e))
    case Success(rec) =>
      match input.sequence
      case Failure(e) => Failure(SequenceFailed(input.geneName, e))
      case Success(text) =>
        match ParseResponse(text)
        case Failure(_) => Failure(MalformedSequence(input.geneName))
        case Success(resp) => Success(BuildRows(input.geneName, rec, resp))
  }

  /**
   * A processed gene produced rows that agree with each other (see
   * `Records.RowsAgree`); its sequence line holds no newline, nor does its
   * header when the gene name has none.
   */
  lemma GeneRowsAgree(input: GeneInput)
    requires ProcessGene(input).Success?
    ensures var g := ProcessGene(input).value;
      && RowsAgree(input.geneName, g)
      && '\n' !in g.sequence
      && ('\n' !in input.geneName ==> '\n' !in g.mergedHeader)
  {
    var rec := input.lookup.value;
    var resp := ParseResponse(input.sequence.value).value;
    BuildRowsAgree(input.geneName, rec, resp);
    BuildRowsLines(input.geneName, rec, resp);
  }

  /**
   * The region request built from a gene's record (get_promoter.py:49-53)
   * asks for the promoter window the coordinate row reports, on the record's
   * region, starting at the alignment row's position.
   */
  lemma RequestMatchesRows(input: GeneInput)
    requires ProcessGene(input).Success?
    ensures var q := PromoterQuery(input.lookup.value);
      var g := ProcessGene(input).value;
      && IsNumeral(g.csvRow[1]) && IsNumeral(g.csvRow[2]) && IsNumeral(g.samRow[3])
      && ParseInt(g.csvRow[1]) == q.start && ParseInt(g.csvRow[2]) == q.end
      && ParseInt(g.samRow[3]) == q.start && g.samRow[2] == q.seqRegion
      && q.end - q.start + 1 == 1000
  {
    var rec := input.lookup.value;
    var resp := ParseResponse(input.sequence.value).value;
    assert ProcessGene(input).value == BuildRows(input.geneName, rec, resp);
  }

  /** The two lines of a processed gene's FASTA record hold no newline when its name holds none. */
  lemma GeneRecordLines(input: GeneInput)
    requires ProcessGene(input).Success? && '\n' !in input.geneName
    ensures '\n' !in ProcessGene(input).value.mergedHeader && '\n' !in ProcessGene(input).value.sequence
  {
    var resp := ParseResponse(input.sequence.value).value;
    BuildRowsLines(input.geneName, input.lookup.value, resp);
  }

  /** Gene `i` was processed and contributed exactly these three entries. */
  predicate Emitted(inputs: seq<GeneInput>, i: int, record: string, csvRow: seq<string>, samRow: seq<string>)
    requires 0 <= i < |inputs|
  {
    var r := ProcessGene(inputs[i]);
    r.Success? && record == r.value.Fasta() && csvRow == r.value.csvRow && samRow == r.value.samRow
  }

  /** Gene `i`'s lookup succeeded and `query` is the region request built from its record. */
  predicate Requested(inputs: seq<GeneInput>, i: int, query: RegionQuery)
    requires 0 <= i < |inputs|
  {
    inputs[i].lookup.Success? && query == PromoterQuery(inputs[i].lookup.value)
  }

  /**
   * `get_promoter_sequence(gene_names, species_common_name)`. Genes are
   * processed one at a time in input order; each processed gene appends
   * exactly one FASTA record to `sequences`, one row to the coordinate table
   * and one row to the alignment table, after the column-name rows written
   * when the files are opened. Every gene whose lookup succeeds sends one
   * region request, built from its record. The first failure stops the run: the tables
   * keep the rows of the genes before it, and the FASTA file, written only
   * after the loop, is not written at all.
   */
  method GetPromoterSequence(inputs: seq<GeneInput>, speciesCommonName: string)
    returns (sequences: seq<string>, csvTable: seq<seq<string>>, samTable: seq<seq<string>>,
             fastaFile: Option<string>, regionRequests: seq<RegionQuery>, err: Option<RunError>)
    ensures speciesCommonName !in SpeciesDict ==>
      && err == Some(UnknownSpecies(speciesCommonName))
      && sequences == [] && csvTable == [] && samTable == [] && regionRequests == []
    ensures |regionRequests| <= |inputs|
    ensures forall i :: 0 <= i < |regionRequests| ==> Requested(inputs, i, regionRequests[i])
    ensures |regionRequests| == if err.Some? && !err.value.LookupFailed? && !err.value.UnknownSpecies?
      then |sequences| + 1 else |sequences|
    ensures speciesCommonName in SpeciesDict ==>
      && |sequences| <= |inputs|
      && |csvTable| == |sequences| + 1 && |samTable| == |sequences| + 1
      && csvTable[0] == CsvColumns && samTable[0] == SamColumns
      && (forall i :: 0 <= i < |sequences| ==> Emitted(inputs, i, sequences[i], csvTable[i + 1], samTable[i + 1]))
      && (err == None <==> |sequences| == |inputs|)
      && (err != None ==> ProcessGene(inputs[|sequences|]) == Failure(err.value))
    ensures fastaFile == if err == None then Some(FastaFile(sequences)) else None
  {
    sequences, csvTable, samTable, fastaFile, regionRequests, err := [], [], [], None, [], None;
    if speciesCommonName !in SpeciesDict {
      err := Some(UnknownSpecies(speciesCommonName));
      return;
    }
    csvTable := [CsvColumns];
    samTable := [SamColumns];
    var i := 0;
    while i < |inputs|
      invariant 0 <= i <= |inputs|
      invariant |sequences| == i && |csvTable| == i + 1 && |samTable| == i + 1
      invariant csvTable[0] == CsvColumns && samTable[0] == SamColumns
      invariant forall j :: 0 <= j < i ==> Emitted(inputs, j, sequences[j], csvTable[j + 1], samTable[j + 1])
      invariant |regionRequests| == i
      invariant forall j :: 0 <= j < i ==> Requested(inputs, j, regionRequests[j])
    {
      var gene := ProcessGene(inputs[i]);
      if inputs[i].lookup.Success? {
        ghost var requestsBefore := regionRequests;
        regionRequests := regionRequests + [PromoterQuery(inputs[i].lookup.value)];
        forall j | 0 <= j < i + 1
          ensures Requested(inputs, j, regionRequests[j])
        {
          if j < i {
            assert regionRequests[j] == requestsBefore[j];
          }
        }
      }
      if gene.Failure? {
        err := Some(gene.error);
        assert ProcessGene(inputs[|sequences|]) == gene;
        return;
      }
      ghost var before := (sequences, csvTable, samTable);
      sequences := sequences + [gene.value.Fasta()];
      csvTable := csvTable + [gene.value.csvRow];
      samTable := samTable + [gene.value.samRow];
      forall j | 0 <= j < i + 1
        ensures Emitted(inputs, j, sequences[j], csvTable[j + 1], samTable[j + 1])
      {
        if j < i {
          assert sequences[j] == before.0[j] && csvTable[j + 1] == before.1[j + 1] && samTable[j + 1] == before.2[j + 1];
        }
      }
      i := i + 1;
    }
    fastaFile := Some(FastaFile(sequences));
  }

  /**
   * The FASTA file of a completed run over genes whose names hold no
   * newline reads back, line by line, as header, sequence, header,
   * sequence, ... in input order.
   */
  lemma CompletedFastaLines(inputs: seq<GeneInput>, sequences: seq<string>)
    requires |sequences| == |inputs| > 0
    requires forall i :: 0 <= i < |inputs| ==> '\n' !in inputs[i].geneName
    requires forall i :: 0 <= i < |inputs| ==> ProcessGene(inputs[i]).Success?
    requires forall i :: 0 <= i < |inputs| ==> sequences[i] == ProcessGene(inputs[i]).value.Fasta()
    ensures var lines := Lines(FastaFile(sequences));
      && |lines| == 2 * |sequences|
      && forall i :: 0 <= i < |sequences| ==>
           lines[2 * i] == ProcessGene(inputs[i]).value.mergedHeader
           && lines[2 * i + 1] == ProcessGene(inputs[i]).value.sequence
  {
    var k := |sequences|;
    var gs := seq(k, i requires 0 <= i < k => ProcessGene(inputs[i]).value);
    forall i | 0 <= i < k
      ensures sequences[i] == gs[i].Fasta() && '\n' !in gs[i].mergedHeader && '\n' !in gs[i].sequence
    {
      GeneRecordLines(inputs[i]);
    }
    RowsFastaLines(gs, sequences);
  }

  /** The response of the worked example below parses into its header and its joined body. */
  lemma ScenarioResponse()
    ensures ParseResponse(">17\nAC\nGT") == Success(SequenceResponse(">17", "ACGT"))
  {
    assert Join(["AC", "GT"], "\n") == "AC\nGT";
    assert Join(["AC", "GT"], "") == "ACGT";
    ParseResponseOfLines(">17", ["AC", "GT"]);
    assert ">17" + "\n" + "AC\nGT" == ">17\nAC\nGT";
  }

  /** The merged header of the worked example below. */
  lemma ScenarioHeader()
    ensures MergedHeader("TP53", ">17") == ">TP53 | 17"
  {
    assert DropFirst(">17") == "17";
  }

  /**
   * A plus-strand gene at 100000..105000 on region 17: the request covers
   * 99000..99999, the coordinate row and the alignment position say so, and
   * the sequence is kept as fetched.
   */
  lemma PlusStrandScenario()
    ensures var input := GeneInput(
        "TP53",
        Success(GeneRecord(100000, 105000, 1, "17", "homo_sapiens")),
        Success(">17\nAC\nGT"));
      && PromoterQuery(input.lookup.value) == RegionQuery("homo_sapiens", "17", 99000, 99999)
      && ProcessGene(input) == Success(GeneRows(
           ">TP53 | 17", "ACGT",
           ["TP53", "99000", "99999", "100000", "105000", "1"],
           [">TP53 | 17", "0", "17", "99000", "255", "1000M", "*", "0", "0", "ACGT", "*"]))
  {
    var rec := GeneRecord(100000, 105000, 1, "17", "homo_sapiens");
    var resp := SequenceResponse(">17", "ACGT");
    ScenarioResponse();
    IntToStringExamples();
    assert PromoterInterval(100000, 105000, 1) == Interval(99000, 99999);
    assert SamPosition(100000, 105000, 1) == 99000;
    ScenarioHeader();
    var header := MergedHeader("TP53", resp.header);
    assert NormalisedSequence("ACGT", 1) == "ACGT";
    var csv := CsvRow("TP53", Interval(99000, 99999), rec);
    assert csv == ["TP53", "99000", "99999", "100000", "105000", "1"];
    var sam := SamRow(header, "17", 99000, "ACGT");
    assert sam == [">TP53 | 17", "0", "17", "99000", "255", "1000M", "*", "0", "0", "ACGT", "*"];
    assert BuildRows("TP53", rec, resp) == GeneRows(header, "ACGT", csv, sam);
  }
}
