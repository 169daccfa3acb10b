/**
 * Gene records as the lookup service returns them and the strand-aware
 * promoter interval arithmetic (get_promoter.py:8-13, 42-53, 72-75).
 * Coordinates are 1-based and inclusive; the strand is the service's
 * integer, and the code tests it literally (`== 1` for the interval and the
 * alignment position, `== -1` for the sequence), so every other value falls
 * into the `else` branches.
 */
module Promoter {

  /** Width of every promoter window, in bases. */
  const Width: int := 1000

  /** `SPECIES_DICT`: the accepted common names and the canonical names the service expects. */
  const SpeciesDict: map<string, string> := map[
    "human" := "homo_sapiens",
    "mouse" := "mus_musculus",
    "fly" := "drosophila_melanogaster",
    "zebrafish" := "danio_rerio"
  ]

  /** The fields of the decoded lookup response that the core reads. */
  datatype GeneRecord = GeneRecord(start: int, end: int, strand: int, seqRegionName: string, species: string)

  /** An inclusive coordinate range. */
  datatype Interval = Interval(start: int, end: int)

  /**
   * The 1000 bases upstream of the gene: just below its start on strand 1,
   * just above its end on any other strand. Nothing is clamped, so a gene
   * near the origin of its region gets coordinates at or below zero.
   */
  function PromoterInterval(geneStart: int, geneEnd: int, strand: int): (iv: Interval)
    ensures iv.end - iv.start + 1 == Width
    ensures strand == 1 ==> iv.end + 1 == geneStart
    ensures strand != 1 ==> iv.start == geneEnd + 1
  {
    if strand == 1 then Interval(geneStart - 1000, geneStart - 1)
    else Interval(geneEnd + 1, geneEnd + 1000)
  }

  /** For a well-formed gene (start <= end) the window never overlaps the gene. */
  lemma PromoterOutsideGene(geneStart: int, geneEnd: int, strand: int)
    requires geneStart <= geneEnd
    ensures var iv := PromoterInterval(geneStart, geneEnd, strand);
      iv.end < geneStart || geneEnd < iv.start
  {
  }

  /** No clamping: a gene starting at base 1 on strand 1 gets the window [-999, 0]. */
  lemma PromoterNotClamped()
    ensures PromoterInterval(1, 500, 1) == Interval(-999, 0)
  {
  }

  /** The alignment-record position, recomputed on its own from the record's fields. */
  function SamPosition(geneStart: int, geneEnd: int, strand: int): (pos: int)
    ensures pos == PromoterInterval(geneStart, geneEnd, strand).start
  {
    if strand == 1 then geneStart - 1000 else geneEnd + 1
  }

  /**
   * The region-sequence request: species and region from the record, the
   * promoter window as the range, always the forward strand (the trailing
   * `:1` of the request path).
   */
  datatype RegionQuery = RegionQuery(species: string, seqRegion: string, start: int, end: int)

  function PromoterQuery(rec: GeneRecord): RegionQuery
  {
    var iv := PromoterInterval(rec.start, rec.end, rec.strand);
    RegionQuery(rec.species, rec.seqRegionName, iv.start, iv.end)
  }
}
