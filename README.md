# get_promoter — a Dafny model

`get_promoter.py` fetches the 1000-base promoter region upstream of each gene in a list.
It asks the Ensembl REST service for the gene's coordinates and strand, computes the
strand-aware promoter window, and fetches that region as FASTA. For each gene it then
writes three things:

- a FASTA record (header and strand-normalised sequence) to `output.fasta`;
- a row of coordinates to `gene_info.csv`;
- an alignment-style row to the tab-separated `output.sam`.

This project models the computational core of that script in Dafny:

- `dna.dfy`, module `Dna`: `reverse_complement`. `str.translate` swaps A/T and C/G and
  passes every other character through; the result is then reversed.
- `promoter.dfy`, module `Promoter`:
  - the species map;
  - the gene record and the request for the promoter region;
  - the promoter interval, which is 1-based, inclusive and never clamped;
  - the separately recomputed alignment position.
- `text.dfy`, module `Text`: the Python string operations the script relies on.
  - `split('\n', 1)`;
  - `replace('\n', '')`;
  - `'\n'.join`;
  - splitting a text back into lines.
- `decimal.dfy`, module `Decimal`: how the `csv` writers turn an integer into a field,
  which is `str(int)`. It also has a parser proving that this text round-trips.
- `records.dfy`, module `Records`:
  - parsing a sequence response into header and body;
  - strand normalisation;
  - the merged FASTA header;
  - the coordinate row and the alignment row;
  - the contents of the FASTA file.
- `pipeline.dfy`, module `Pipeline`:
  - one iteration of the per-gene loop, as a function `ProcessGene`;
  - the loop itself, as the method `GetPromoterSequence`. It accumulates the FASTA
    records and the two tables and keeps them row-aligned.
- `wrappers.dfy`, module `Wrappers`: `Option` and `Result`.

Strand is an `int`, as in the decoded JSON. Two tests decide the branches, exactly as the
code writes them:

- the interval and the alignment position test `strand == 1`;
- the sequence choice tests `strand == -1`.

Any other strand value therefore gets the interval after the gene, together with the
un-complemented sequence.

The answers of the two remote calls are inputs to the model (`Pipeline.GeneInput`). Each
one is either the decoded record or the response text, or a non-success HTTP status.

Behaviour on a failure follows the code. An unknown species fails the dictionary lookup
before any file is opened, so nothing is written. A failed request, or a response with no
newline, raises inside the loop. In that case the two tables keep their column-name row
and the rows of the genes already processed. `output.fasta` is written only after the
loop, so it is not written at all.

## Model

| member | source | states |
|---|---|---|
| Dna.ComplementInvolution | get_promoter.py:16 | About `Dna.Complement`, the table of `str.maketrans('ACGT', 'TGCA')`: it swaps A/T and C/G and fixes every other character, so applying it twice gives back the character. |
| Dna.Translate | get_promoter.py:16-17 | Translation keeps the length and maps each position through the complement table independently. |
| Dna.Reverse | get_promoter.py:17 | The `[::-1]` slice keeps the length and puts the character at position `len(s)-1-i` at position `i`. |
| Dna.ReverseComplement | get_promoter.py:15-17 | The reverse complement has the input's length. Its character `i` is the complement of the input character at position `len(s)-1-i`. |
| Dna.ReverseComplementInvolution | get_promoter.py:15-17 | Reverse complement is an involution on every string, not only on strings over ACGT. |
| Dna.ReverseComplementKeepsOthers | get_promoter.py:15-17 | A character outside ACGT (N, lower case, ...) occurs in the result exactly when it occurs in the input. |
| Dna.ReverseComplementExamples | get_promoter.py:15-17 | ACGT is its own reverse complement, and "ANGn" becomes "nCNT": N and lower-case n pass through unchanged at mirrored positions. |
| Promoter.PromoterInterval | get_promoter.py:42-47 | The window is always 1000 bases wide. On strand 1 it ends just before the gene start. On any other strand it starts just after the gene end. |
| Promoter.PromoterOutsideGene | get_promoter.py:42-47 | For a gene with start <= end, the window does not overlap the gene. |
| Promoter.PromoterNotClamped | get_promoter.py:42-44 | Coordinates are not clamped: a plus-strand gene at base 1 gets the window -999..0. |
| Promoter.SamPosition | get_promoter.py:72-75 | The recomputed alignment position equals the promoter start for every strand value. |
| Text.FindFirst | get_promoter.py:59 | Locates the first separator: none exactly when the text has none, and otherwise the earliest occurrence. |
| Text.SplitOnce | get_promoter.py:59 | `split(sep, 1)` gives one part exactly when the separator is absent. Otherwise it gives two parts around the first separator, and they rebuild the text. |
| Text.RemoveAll | get_promoter.py:60 | `replace('\n', '')` leaves no newline and never lengthens the text. |
| Text.RemoveAllKeepsOthers | get_promoter.py:60 | Deleting newlines keeps every other character with its multiplicity. |
| Text.RemoveAllAppend | get_promoter.py:60 | Deleting a character distributes over concatenation. |
| Text.RemoveAllAbsent | get_promoter.py:60 | Deleting a character that does not occur changes nothing. |
| Text.Lines | get_promoter.py:80 | A helper for reading the file written at line 80 back, as Python's `split('\n')`: it gives at least one line, and no line contains a newline. |
| Text.LinesOfJoin | get_promoter.py:80 | About `Text.Join`: `'\n'.join` of a nonempty list of newline-free strings splits back into exactly that list. |
| Text.Interleave | get_promoter.py:67 | A helper for reading the FASTA file back, which the source does not do itself: alternating headers and sequences puts header `i` at line `2i` and sequence `i` at line `2i+1`. |
| Text.JoinPairs | get_promoter.py:67-80 | Joining two-line records with newlines gives the same text as joining the interleaved lines. |
| Decimal.NatToString | get_promoter.py:69-70 | The decimal text of a natural number is made of digits only and has no leading zero. |
| Decimal.ParseNatToString | get_promoter.py:69-70 | Parsing the decimal text of a natural number gives the number back. |
| Decimal.IntToString | get_promoter.py:69-70 | `str(n)` of a negative number is "-" followed by digits; otherwise it is digits only. The text is canonical: it starts with 0 only when it is "0", and a minus sign is never followed by 0. |
| Decimal.ParseIntToString | get_promoter.py:69-77 | Every integer field the writers produce is a numeral, and it parses back to the integer. |
| Decimal.IntToStringParse | get_promoter.py:69-77 | Conversely, every canonical numeral is the text `str` writes for its value. So the canonical numerals are exactly the texts `str(int)` produces. |
| Decimal.NatToStringParse | get_promoter.py:69-70 | A digit string without zero padding is the decimal text of its own value. |
| Decimal.IntToStringInjective | get_promoter.py:69-70 | Different integers give different fields. |
| Decimal.IntToStringExamples | get_promoter.py:69-70 | The fields written for the worked example's coordinates, e.g. 99000 -> "99000" and 105000 -> "105000". |
| Records.ParseResponse | get_promoter.py:59-60 | Unpacking fails exactly when the text has no newline. On success the header is the text before the first newline. The body is the rest with every newline removed, and header + newline + rest rebuilds the text. |
| Records.ParseResponseOf | get_promoter.py:59-60 | A text made of a newline-free header, a newline and any rest parses into that header and the rest with its newlines removed. |
| Records.ParseResponseOfLines | get_promoter.py:59-60 | A header line followed by body lines parses into the header and the body lines concatenated. |
| Records.JoinRemoveNewlines | get_promoter.py:60 | Removing the newlines from newline-joined lines concatenates those lines. |
| Records.NormalisedSequence | get_promoter.py:61-64 | The chosen sequence has the body's length. On strand -1 it is the reverse complement of the body, so its own reverse complement is the body. On any other strand it is the body unchanged. |
| Records.DropFirst | get_promoter.py:66 | `header[1:]` drops exactly the first character of a nonempty header, and gives the empty string for an empty one. |
| Records.MergedHeader | get_promoter.py:66 | The merged header is ">" + gene name + a space, a vertical bar and a space + header[1:]. It contains no newline when neither input does. |
| Records.FastaRecord | get_promoter.py:67 | The record `'{}\n{}'.format(merged_header, sequence)` is the header, one newline and the sequence, position by position. |
| Records.SplitFastaRecord | get_promoter.py:67 | A FASTA record whose header has no newline splits at its first newline into the header and the sequence. |
| Records.CsvRow | get_promoter.py:69-70 | The coordinate row has six fields in column order. The gene name is the first field, and each numeric field is a canonical numeral (as `str` writes it, with no zero padding) that parses back to the promoter start, promoter end, gene start, gene end and strand. |
| Records.SamRow | get_promoter.py:77 | The alignment row has 11 fields: QNAME is the merged header, FLAG "0" and RNAME the region name. POS is a canonical numeral that parses back to the position. MAPQ is "255", CIGAR "1000M", RNEXT "*", PNEXT and TLEN "0", SEQ the un-normalised body and QUAL "*". |
| Records.FastaFileLines | get_promoter.py:67-80 | About `Records.FastaFile`, the text `'\n'.join(sequences)`: the FASTA file of two-line records reads back, line by line, as header, sequence, header, sequence, ... |
| Records.RowsFastaLines | get_promoter.py:67-80 | The FASTA file of several genes' records, when no header or sequence holds a newline, reads back as header `i` on line `2i` and sequence `i` on line `2i+1`. |
| Records.BuildRowsAgree | get_promoter.py:42-77 | About `Records.BuildRows`, the loop body once both answers are in: the rows built for one gene agree with each other, listed below. |
| Records.BuildRowsLines | get_promoter.py:60-67 | For a parsed response whose body holds no newline, the record's sequence line holds no newline. Its header holds none when neither the gene name nor the response header does. Every `Records.ParseResponse` result meets both conditions on the response (its header precedes the first newline and its body had every newline removed), and that is where the loop gets it. |
| Pipeline.GeneRowsAgree | get_promoter.py:37-77 | Every gene the loop processes yields rows that agree as in `Records.BuildRowsAgree`, and a record whose sequence line holds no newline. The header holds none either when the gene name has none, and then the record is exactly two lines. |
| Pipeline.GeneRecordLines | get_promoter.py:60-67 | A processed gene whose name holds no newline has a header line and a sequence line without newlines. |
| Pipeline.ProcessGene | get_promoter.py:37-77 | One loop iteration succeeds exactly when both requests succeed and the sequence response holds a newline. Otherwise it reports the first thing that went wrong, and a failure always names the gene. It is a lookup failure exactly when the lookup failed, carrying that request's status. It is a sequence-request failure exactly when the lookup succeeded and the region request failed, carrying that request's status. It is a malformed sequence (the unpacking error) exactly when both requests succeeded and the response holds no newline. |
| Pipeline.RequestMatchesRows | get_promoter.py:49-77 | About `Promoter.PromoterQuery`: the region requested for a processed gene is the 1000-base window its coordinate row reports, on its region, starting at its alignment position. |
| Pipeline.GetPromoterSequence | get_promoter.py:19-80 | An unknown species stops the run before anything is written. Otherwise see the list below. |
| Pipeline.CompletedFastaLines | get_promoter.py:79-80 | After a completed run, line `2i` of `output.fasta` is the merged header of gene `i` and line `2i+1` is its sequence. This holds when no gene name contains a newline. |
| Pipeline.ScenarioResponse | get_promoter.py:59-60 | A two-line FASTA body is joined into one sequence under its header. |
| Pipeline.ScenarioHeader | get_promoter.py:66 | Header ">17" of gene TP53 becomes ">TP53", a space, a vertical bar, a space and "17". |
| Pipeline.PlusStrandScenario | get_promoter.py:42-77 | Worked example: a plus-strand gene at 100000..105000 on region 17. The requested region is 99000..99999. The coordinate row reads TP53, 99000, 99999, 100000, 105000, 1. The alignment row has POS 99000, and the sequence is kept as fetched. |

`Records.BuildRowsAgree` states that the rows built for one gene agree with each other:

- the coordinate row and the alignment row have the column counts of their headers;
- the gene name is the first coordinate field, and the other fields are numerals;
- the alignment POS field equals the promoter-start field;
- the window is 1000 bases wide and sits next to the gene on the side the strand selects;
- QNAME is the merged FASTA header;
- the FASTA sequence and SEQ have the same length, and the sequence is the reverse complement of SEQ exactly on strand -1.

For a known species, `Pipeline.GetPromoterSequence` states:

- after `k` processed genes, the FASTA records and the two tables (each under its column-name row) hold exactly `k` entries;
- entry `i` of each is what gene `i` produces;
- the run completes exactly when every gene is processed, and otherwise it stops at the first gene whose processing fails, with that gene's error;
- `output.fasta` is the records joined with newlines on completion, and it is not written on failure;
- the region requests sent are `Promoter.PromoterQuery` of each gene's record, in input order, for every gene the run reaches whose lookup succeeds (including a gene whose sequence request then fails).

## Left out

- HTTP requests, `raise_for_status` and JSON decoding (get_promoter.py:37-41, 55-57) are calls to a remote service. The decoded record and the response text are inputs. A non-success status is an input that aborts the run. The service URL and headers are not modelled; `Promoter.PromoterQuery` records only the species, region and window the region request names. Nothing ties a pre-fetched response to the request sent for it.
- Opening, writing and closing `gene_info.csv`, `output.sam` and `output.fasta`, and the `csv` module's quoting, escaping and line terminators, are file I/O and library code. Rows are sequences of field strings, and the FASTA file is its text.
- Argument parsing and reading the gene-list file (get_promoter.py:82-100) are `argparse` and file I/O. The gene names are given as a sequence.
- Conformance to section 1.4 of the SAMv1 format specification. The model states what the code emits: a column-name row instead of `@` header lines, `>` and spaces in QNAME, and CIGAR "1000M" whatever the sequence length.
- Strand values other than 1 and -1 are not validated, since the code does not validate them. They follow the code's literal branches.
- The record's own `species` field is what the region request uses (get_promoter.py:50); the model keeps it in `Promoter.PromoterQuery` and does not check it against the requested species.
- Records.MergedHeader: the "no newline" guarantee is stated only for inputs without newlines. A gene name containing a newline would split its FASTA record, and the model does not describe that file's lines.
