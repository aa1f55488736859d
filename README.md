# Entity linking for food texts, modelled in Dafny

This project models the entity linker for food-related texts. The linker takes spans of text that are annotated
with a category and maps each span to a FoodOn ontology class. The FoodOn class is identified by its IRI and label.

The repository contains three generations of the linker, and all three are modelled side by side so that their
differences can be stated as lemmas:

- `entity_linker.py` is the first linker. It maps every possible label of every food-product descendant to that
  descendant's IRI. It compares the raw span text against each label with an unguarded Jaccard similarity. It
  keeps the first candidate among equal scores, and it aborts with a division by zero when both texts normalize to
  nothing.
- `entity_linker/` is the packaged linker. It has one index from normalized best label to entry. A span whose
  normalized text is a key of that index is matched directly. Otherwise every entry is scanned with the guarded
  `set_similarity`, and the later candidate wins among equal scores.
- `taisti_linker/` is the newest linker. It keeps one index per category (food and process), and a span is
  matched only within its own category. The metric is picked by a one-letter selector, but every metric is
  answered with Jaccard. The per-category index can come from a pickle cache.

Beside the linkers, the project models these parts:

- the text normalizer: non-letters become spaces, whitespace is collapsed, text is lower-cased, stopwords are
  dropped, and the remaining tokens are stemmed;
- the set-similarity metrics;
- the Penn-to-WordNet tag mapping;
- the averaging loop of the WordNet metric;
- the BRAT and NER annotation readers;
- the report rows;
- the knowledge-base alias generator of `generate_kb.py`, which builds every nonempty combination of the distinct
  name tokens in every order, groups entity ids by alias, and gives them equal probabilities;
- the synonym export of `create_csv.py`.

Strings follow Python's own rules where the readers and the normalizer depend on them. `strip()` and `split()`
use the whitespace of `str.isspace`. `int()` accepts surrounding whitespace, a sign, and single underscores
between digits. A file iterated line by line ends its lines at "\n", "\r\n" and "\r" (universal newlines), and
each of them is read as "\n".

Python dicts are modelled as insertion-ordered maps, `OrderedMap`. Scores are exact reals. Exceptions are
`Result` failures. The spaCy tokenizer, the Porter stemmer, the stopword list, WordNet and the ontology graph are
given as parameters.

## Model

| member | source | states |
|---|---|---|
| SetSimilarity.Ratio | entity_linker/text_processor.py:32-36 | the guarded Jaccard ratio of `set_similarity` (and of `_jaccard`, `jaccard`, `anygrams`, `_everygrams`) always lies in [0, 1] |
| SetSimilarity.UnguardedRatio | entity_linker/text_processor.py:26-30 | the unguarded division fails only with a division-by-zero error |
| SetSimilarity.RatioEmpty | entity_linker/text_processor.py:33-34 | an empty set on either side gives 0.0 |
| SetSimilarity.RatioSymmetric | entity_linker/text_processor.py:36 | the ratio does not depend on argument order |
| SetSimilarity.RatioOneIff | entity_linker/text_processor.py:36 | the ratio is 1 if and only if both sets are the same nonempty set |
| SetSimilarity.RatioZeroIff | entity_linker/text_processor.py:33-36 | the ratio is 0 if and only if a set is empty or the sets are disjoint |
| SetSimilarity.UnguardedAgrees | entity_linker/text_processor.py:26-30 | the unguarded ratio fails if and only if both sets are empty, and otherwise equals the guarded ratio |
| TextProcessor.CollapseWhitespaceShape | entity_linker/text_processor.py:15 | collapsing whitespace keeps every non-whitespace character in order, leaves no two spaces in a row, and keeps letters-and-spaces text letters-and-spaces |
| TextProcessor.LettersOnlyShape | entity_linker/text_processor.py:14 | replacing non-letters by spaces leaves only letters and spaces, and the non-blank characters are exactly the input's ASCII letters |
| TextProcessor.RegexStepsShape | entity_linker/text_processor.py:14-16 | after the three regex/lower-case steps the text holds only lower-case letters and single spaces, and its letters are the input's ASCII letters lower-cased, in order |
| TextProcessor.FilterStopwords | entity_linker/text_processor.py:17 | a token is kept if and only if it occurs in the input and is not a stopword |
| TextProcessor.StopwordsRemovedBeforeStemming | entity_linker/text_processor.py:17-18 | every space-separated token handed to the tokenizer is empty or not a stopword |
| TextProcessor.NormalizeWords | entity_linker/text_processor.py:18 | when stems are nonempty words, the whitespace tokens of the normalized text are exactly the stems of the tokenizer's tokens, in order |
| TextProcessor.SimilarityFailsIff | entity_linker/text_processor.py:21-30 | `similarity` divides by zero if and only if both texts normalize to no tokens, and otherwise equals the guarded ratio of the token sets |
| TextProcessor.OneLetterWordSteps | entity_linker/text_processor.py:14-17 | a one-letter lower-case word passes the regex steps unchanged, and the stopword step drops it exactly when it is a stopword |
| TextProcessor.NormalizeNotIdempotent | entity_linker/text_processor.py:17-18 | normalizing is not idempotent: with the stopword "a" and a stemmer mapping "b" to "a", "b" normalizes to "a" and "a" normalizes to "" |
| TextProcessor.NormalizeEmpty | entity_linker/text_processor.py:12-19 | the empty text normalizes to the empty text |
| TextProcessor.SimilarityOfEmptyTextsFails | entity_linker/text_processor.py:26-30 | comparing two empty texts raises a division by zero |
| SimilarityCalculator.SimilarityIdToType | taisti_linker/similarity_calculator.py:41-57 | 'e'/'E' select everygrams and 'w'/'W' WordNet; every other selector, both directions, selects Jaccard |
| SimilarityCalculator.Calculate | taisti_linker/similarity_calculator.py:21-38 | every metric tag is answered with the Jaccard similarity, a value in [0, 1] |
| SimilarityCalculator.JaccardProperties | taisti_linker/similarity_calculator.py:59-77 | `_jaccard` (and `jaccard` of entity_linker/similarity_calculator.py:18-27) is 0 when a text has no tokens, lies in [0, 1], is symmetric, and is 1 exactly when the token sets are equal and nonempty |
| SimilarityCalculator.JaccardExtendsSimilarity | taisti_linker/similarity_calculator.py:74-77 | where the unguarded `similarity` succeeds the guarded Jaccard value is the same, and where it fails the guarded value is 0 |
| SimilarityCalculator.EverygramSetShape | taisti_linker/similarity_calculator.py:91-92 | there are no everygrams exactly when there are no tokens, and the one-token everygrams are exactly the tokens |
| SimilarityCalculator.EverygramProperties | taisti_linker/similarity_calculator.py:79-97 | `_everygrams` (and `anygrams` of entity_linker/similarity_calculator.py:29-38) is 0 when a text has no tokens, lies in [0, 1] and is symmetric |
| SimilarityCalculator.PennToWn | taisti_linker/similarity_calculator.py:138-152 | a WordNet tag is produced exactly for Penn tags starting with N, V, J or R, and it is one of n, v, a, r |
| SimilarityCalculator.PennToWnInitial | taisti_linker/similarity_calculator.py:140-150 | the WordNet tag determines the Penn tag's initial (n from N, v from V, a from J, r from R) |
| SimilarityCalculator.TaggedToSynset | taisti_linker/similarity_calculator.py:154-163 | no synset without a WordNet tag; a synset found is the first one WordNet lists for the word under that tag |
| SimilarityCalculator.PyMaxCharacterized | taisti_linker/similarity_calculator.py:127 | `max` of a word's scores raises ValueError exactly on an empty list, and TypeError exactly when a list of two or more holds a None; it returns None only for `[None]`, and otherwise a listed score that is at least every listed score |
| SimilarityCalculator.BestsCharacterized | taisti_linker/similarity_calculator.py:125-127 | every word's best score is computed exactly when every word's `max` succeeds, and each is then that word's `max`; otherwise the error is that of the first word whose `max` raises |
| SimilarityCalculator.AverageBestScores | taisti_linker/similarity_calculator.py:122-136 | the averaging loop raises the error of the first `max` that raises; otherwise it divides by zero exactly when no best score is known, and else returns the sum of the known best scores over their count |
| SimilarityCalculator.AverageInUnitRange | taisti_linker/similarity_calculator.py:125-136 | when every computable score lies in [0, 1], so does their average |
| Commons.AllAnnotationsFlatten | entity_linker/commons.py:25-30 | all annotations of a document list are the documents' annotation lists concatenated in document order |
| Commons.GetFileId | entity_linker/commons.py:103-104 | `get_file_id` fails with an index error exactly when the path has fewer than two pieces between '.' and '/', and otherwise succeeds or fails with a value error (same code in entity_linker.py:186-188) |
| Strings.ParseIntUnderscore | entity_linker/commons.py:93-94 | `int("1_0")` is 10: a single underscore between digits is accepted |
| Strings.ParseIntMisplacedUnderscores | entity_linker/commons.py:93-94 | `int()` rejects "1__0", "_1" and "1_": an underscore must stand alone between two digits |
| Commons.NumberedFileId | entity_linker/commons.py:103-104 | a file named `<number>.<extension>` in any directory has that number as its id |
| Commons.AnnotationPath | entity_linker/commons.py:45 | the annotation path always ends in ".ann" |
| Commons.TxtFilePairing | entity_linker/commons.py:44-46 | `<stem>.txt` is paired with `<stem>.ann`, and both paths give the same file id |
| Commons.TxtSuffixWithoutDot | entity_linker/commons.py:44-45 | the "txt" test alone also accepts "data/1xtxt" and pairs it with "data/1.ann", the annotation file of "data/1.txt"; this path never reaches the pairing, since `get_file_id` raises on "data" first, and TxtSuffixWithoutDotDocument shows a path that does |
| Commons.TxtSuffixWithoutDotPath | entity_linker/commons.py:43-45 | the entry "<n>xtxt" of a directory "<d>" passes the "txt" test but not the ".txt" test, and is paired with "<d>/<n>.ann" |
| Commons.TxtSuffixWithoutDotFileId | entity_linker/commons.py:103-104 | the path "<d>/<n>xtxt" has file id d |
| Commons.TxtSuffixWithoutDotIds | entity_linker/commons.py:44-46 | "<d>/<n>xtxt" has file id d, while its paired annotation file "<d>/<n>.ann" has file id n |
| Commons.TxtSuffixWithoutDotDocument | entity_linker/commons.py:40-53 | the entry "<n>xtxt" of the directory "<d>" is read as document d holding the annotations of "<d>/<n>.ann", which carry file id n (as-written half of finding 2) |
| Commons.TxtFileOwnAnnotations | entity_linker/commons.py:44-46 | under a ".txt" test every accepted file is paired with its own stem's ".ann" file, with the same file id (corrected half of finding 2) |
| Commons.LinesOfRoundTrip | entity_linker/commons.py:78-79 | the lines a file opened in text mode is iterated in join back to its contents with "\r\n" and "\r" read as "\n" (to the contents themselves when they hold no "\r"); every line is nonempty, holds no "\r", has "\n" only at its end, and all but the last end in "\n" |
| Commons.TranslateNewlinesExample | entity_linker/commons.py:78-79 | "a\r\nb\rc" is read as "a\nb\nc" |
| Commons.LinesOfCrLf | entity_linker/commons.py:78-79 | a file holding "a\r\nb" is iterated as the lines "a\n" and "b" |
| Commons.BratLineIsOneLine | entity_linker/commons.py:78-79 | the standoff line of an annotation whose id and text hold no line end is read as exactly one line |
| Commons.BratFileOfOneLine | entity_linker/commons.py:75-100 | a file holding the standoff line of one well-formed annotation is read as exactly that annotation |
| Commons.ParseBratLine | entity_linker/commons.py:80-99 | lines not starting with 'T' are skipped; an annotation read is from a 'T' line, is a BRAT annotation, carries the path's file id, and its id and text hold no tab; `strip`, `split` and `int` follow Python's rules (same code in entity_linker.py:164-184) |
| Commons.BratLineRoundTrip | entity_linker/commons.py:80-99 | reading the standoff line written for a well-formed annotation gives back that annotation |
| Commons.ReadBratAnnotation | entity_linker/commons.py:75-100 | the reading loop returns the annotations of the file's lines in order, or the error of the first bad line |
| Commons.BratAnnotationsFailurePersists | entity_linker/commons.py:79-99 | once a line raises, the whole file fails with that error |
| Commons.BratAnnotationsShape | entity_linker/commons.py:75-100 | every annotation read is a BRAT annotation with the file's id, and there are no more annotations than lines |
| Commons.BratFileRoundTrip | entity_linker/commons.py:75-100 | reading back the lines written for well-formed annotations of one file gives exactly those annotations |
| Commons.ReadDocument | entity_linker/commons.py:42-53 | a document read from a directory entry has the joined path, the file's text as text mode reads it (line ends translated to "\n"), the path's file id, and the annotations read from its ".ann" file |
| Commons.ReadDocumentOf | entity_linker/commons.py:42-53 | conversely, a text file with a file id whose annotation file reads without error is read as the document holding its text (line ends translated) and those annotations |
| Commons.ReadBratAnnotationFiles | entity_linker/commons.py:40-54 | the directory loop returns one document per listed text file in listing order, or the first error |
| Commons.BratDocumentsFailurePersists | entity_linker/commons.py:42-53 | once an entry raises, the whole directory read fails with that error |
| Commons.ReadDocumentShape | entity_linker/commons.py:42-53 | a document read is a text file's contents, with line ends translated, and its id, and for ".txt" names its annotations carry the document's own id |
| Commons.BratDocumentsShape | entity_linker/commons.py:40-54 | every document read comes from some listed entry as `ReadFrom` describes |
| Commons.ReadNerAnnotations | entity_linker/commons.py:57-72 | the NER reader returns one document per parsed document, in order, each built from that document's index and entities |
| Commons.NerDocShape | entity_linker/commons.py:61-71 | a NER document's annotations are its entities' fields, carry the document index as file id, have ids "0", "1", … that are pairwise distinct, and the source is NER |
| BestMatch.Scan | taisti_linker/entity_linker.py:103-127 | the scan's best position, when there is one, is a position of the scored candidates |
| BestMatch.ScanPickStep | taisti_linker/entity_linker.py:118-123 | one loop step picks candidate `i` and takes its score exactly when the score clears the threshold and beats the running best, and otherwise changes nothing |
| BestMatch.Pick | taisti_linker/entity_linker.py:123 | a picked candidate is one of the candidates |
| BestMatch.ScanIsBest | taisti_linker/entity_linker.py:103-127 | for nonnegative scores the scan meets the independent description `IsBest`: nothing when no score clears the threshold, otherwise a maximal score above the threshold, the last of equal maxima under `>=` and the first under `>` |
| BestMatch.PickIsBest | taisti_linker/entity_linker.py:103-127 | the item picked is None exactly when no score clears the threshold, and otherwise a maximal-score item above the threshold, ties broken by the policy (`>=` here and in entity_linker/entity_linker.py:80-83, `>` in entity_linker.py:135-136) |
| BestMatch.IsBestUnique | taisti_linker/entity_linker.py:118-123 | the description `IsBest` has exactly one solution, so it defines what the scan computes |
| BestMatch.TiePoliciesDiffer | entity_linker.py:135-136 | on two equal scores above the threshold, `>=` keeps the later candidate and `>` the earlier one |
| Report.LinkedRowReadBack | taisti_linker/entity_linker.py:75-87 | a report row has 8 cells, or 9 with the source; its numeric cells parse back to the annotation's numbers, its text cells are the annotation's, and the last two are the link |
| Report.SourceNameInjective | taisti_linker/entity_linker.py:82 | the source cell tells BRAT and NER annotations apart |
| Report.RowForShape | taisti_linker/entity_linker.py:84-89 | an annotation gets a row if and only if it is linked or unlinkable ones are not ignored; the row has 8 or 9 cells and starts with the annotation data |
| Report.RowsAppend | taisti_linker/entity_linker.py:57-58 | writing two runs of annotations writes the first run's rows, then the second's |
| Report.RowsAt | taisti_linker/entity_linker.py:57-89 | when every annotation has a row, row k is annotation k's |
| Report.RowsFrom | taisti_linker/entity_linker.py:57-89 | there are at most as many rows as annotations, and every row is some annotation's row |
| Report.RowsNone | taisti_linker/entity_linker.py:84-89 | when no annotation has a row, nothing is written |
| Halting.WrittenAt | entity_linker.py:117-127 | row k of a loop that stops at the first failure is outcome k's row, and the outcome right after the last row is the failure that stopped it |
| Halting.WrittenAppend | entity_linker.py:117-127 | after items that all succeeded, later rows are appended; after a failure nothing more is written |
| Halting.FlattenStep | entity_linker.py:117-127 | one more document after documents whose annotations all succeeded appends its rows, and a failing annotation stops the whole loop for good |
| TaistiLinker.Scores | taisti_linker/entity_linker.py:115-116 | score i is the configured similarity between the text and entry i's normalized label |
| TaistiLinker.Link | taisti_linker/entity_linker.py:91-127 | the loop of `link` returns the scan's pick over the category's entries in insertion order, and None for a category without an index |
| TaistiLinker.LinkCharacterized | taisti_linker/entity_linker.py:103-127 | a category without an index links to nothing; otherwise nothing is linked if and only if no entry scores above the threshold, and a linked entry scores above the threshold, highest, and strictly above every later entry |
| TaistiLinker.LinkFromIndex | taisti_linker/entity_linker.py:109-123 | a linked item is an entry stored in the category's index |
| TaistiLinker.DecideDirectMatch | taisti_linker/entity_linker.py:62-73 | with the parser's index, a direct match is the entry of some descendant whose normalized label equals the span's normalized text; without one, the decision is `link`'s |
| TaistiLinker.DecideLink | taisti_linker/entity_linker.py:60-73 | the per-annotation decision of `link_all`: direct match, otherwise `link` on the normalized text |
| TaistiLinker.LinkRow | taisti_linker/entity_linker.py:75-89 | the row written for one annotation: data plus IRI and label, data plus "NONE", "NONE", or nothing when unlinkable ones are ignored |
| TaistiLinker.LinkDocument | taisti_linker/entity_linker.py:58-89 | the inner loop appends the rows of one document's annotations, in order |
| TaistiLinker.LinkAll | taisti_linker/entity_linker.py:45-89 | `link_all` writes the rows of all annotations of all documents, in order |
| TaistiLinker.ReportRowsWidth | taisti_linker/entity_linker.py:75-89 | every report row has 9 cells and starts with the data of one of the annotations |
| TaistiLinker.ReportRowsAll | taisti_linker/entity_linker.py:84-89 | without `ignore_not_linkable` row k is annotation k's, one per annotation |
| TaistiLinker.ReportRowsNoneLinked | taisti_linker/entity_linker.py:88-89 | with `ignore_not_linkable` and nothing linkable, the report is empty |
| TaistiLinker.LabelMappingCache.constructor | taisti_linker/entity_linker.py:140-142 | the cache starts with whatever was pickled before |
| TaistiLinker.LabelMappingCache.LoadOrBuild | taisti_linker/entity_linker.py:129-153 | a stored mapping is returned unchanged; otherwise the parser's per-category index is built, stored and returned |
| TaistiLinker.LabelMappingCache.LoadTwice | taisti_linker/entity_linker.py:140-153 | a second load returns what the first returned, even for another ontology or normalizer: the cache is never invalidated |
| PackageLinker.ItemScore | entity_linker/entity_linker.py:76-78 | the score of an entry is the guarded ratio of the two word sets, a value in [0, 1] |
| PackageLinker.Scores | entity_linker/entity_linker.py:72-78 | score i is entry i's `set_similarity` against the text |
| PackageLinker.Link | entity_linker/entity_linker.py:66-87 | the loop of `link` returns the scan's pick over the index entries in insertion order, the later of equal scores winning |
| PackageLinker.LinkCharacterized | entity_linker/entity_linker.py:69-87 | nothing is linked if and only if no entry scores above the threshold; a linked entry scores above the threshold, highest, and strictly above every later entry; an entry with the text's nonempty word set scores 1 |
| PackageLinker.DecideLink | entity_linker/entity_linker.py:39-49 | the per-annotation decision: the entry stored under the normalized text, otherwise `link` on the normalized text |
| PackageLinker.RowsOf | entity_linker/entity_linker.py:35-64 | there is exactly one row per annotation |
| PackageLinker.LinkRow | entity_linker/entity_linker.py:51-64 | the row of one annotation is its six data cells followed by the link's IRI and label or "NONE", "NONE" |
| PackageLinker.LinkDocument | entity_linker/entity_linker.py:36-64 | the inner loop appends one row per annotation of the document, in order |
| PackageLinker.LinkAll | entity_linker/entity_linker.py:30-64 | `link_all` writes one row per annotation of all documents, in order |
| PackageLinker.ReportRowsShape | entity_linker/entity_linker.py:51-64 | row k is annotation k's row in the shared report format, without a source column, unlinked annotations included |
| LabelToIriMap.PutAllValues | entity_linker.py:58-59 | after writing a descendant's labels, the keys are the old keys plus the labels, each label maps to the IRI, and every other key keeps its value |
| LabelToIriMap.MappingStep | entity_linker.py:57-59 | writing one more descendant's labels gives exactly those labels its IRI and leaves the other keys unchanged |
| LabelToIriMap.MappingLastWins | entity_linker.py:57-59 | every key holds the IRI of the last descendant listing it |
| LabelToIriMap.MappingKeys | entity_linker.py:57-59 | a label is a key if and only if some descendant lists it |
| RootLinker.Groups | entity_linker.py:57-58 | group i is descendant i's possible labels with its IRI |
| RootLinker.LabelToIriCharacterized | entity_linker.py:55-60 | the keys are exactly the descendants' possible labels, and each holds the IRI of the last descendant having it |
| RootLinker.GetLabelToIriMapping | entity_linker.py:55-60 | the nested loop builds the label-to-IRI dictionary of the food-product descendants |
| RootLinker.PutLabels | entity_linker.py:58-59 | the inner loop writes every label of one descendant with its IRI |
| RootLinker.Pairs | entity_linker.py:133 | `items()` pairs each key, in insertion order, with its IRI |
| RootLinker.Score | entity_linker.py:134 | a guarded score lies in [0, 1] and equals `similarity` wherever that does not raise |
| RootLinker.FailFlags | entity_linker.py:134 | flag i says whether `similarity` raises on label i |
| RootLinker.Link | entity_linker.py:129-140 | `link` raises the first division by zero, if any, and otherwise returns the guarded scan's pick, the earlier of equal scores winning |
| RootLinker.LinkFailsIff | entity_linker.py:133-134 | `link` raises if and only if the text and some label both normalize to no words, and what it raises is ZeroDivisionError |
| RootLinker.LinkGuardedIsBest | entity_linker.py:130-140 | when `link` does not raise: nothing if no label scores above the threshold, else the first label with the highest score paired with its IRI (corrected half of finding 1) |
| RootLinker.PickOfPairsIsBest | entity_linker.py:130-140 | for any scores of the dictionary's labels, the scan's pick is nothing when no score clears the threshold, else the first label with the highest score paired with its IRI |
| RootLinker.LinkOfEmptyTextFails | entity_linker.py:133-134 | linking the empty text against a dictionary holding the empty label raises (as-written half of finding 1) |
| RootLinker.DocOutcomesAt | entity_linker.py:117-118 | document `id`'s outcomes are those of its annotations |
| RootLinker.LinkRow | entity_linker.py:120-127 | one annotation either raises ZeroDivisionError or gets its row |
| RootLinker.LinkAt | entity_linker.py:118-127 | the row or error for annotation `annotationId` is that annotation's outcome |
| RootLinker.LinkDocument | entity_linker.py:118-127 | the inner loop appends the rows written before it stops, and reports an error exactly when an annotation raises |
| RootLinker.LinkAll | entity_linker.py:113-127 | `link_all` writes the rows of all annotations up to the first that raises, and stops with that error |
| RootLinker.OutcomesOfAll | entity_linker.py:117-118 | the outcomes of all annotations are each document's, in order |
| RootLinker.OutcomeCharacterized | entity_linker.py:122-127 | an annotation stops the run exactly when `link` raises on its text; otherwise its row is its data followed by the link or "NONE", "NONE" |
| RootLinker.WrittenRowsCharacterized | entity_linker.py:113-127 | a row for each annotation up to the first that raises, that one's outcome being the failure; no error exactly when no annotation raises |
| OntologyParser.BestLabelPriority | entity_linker/ontology_parser.py:63-78 | prefLabel decides the label whatever else is present, label decides when prefLabel is absent, and the "<UNKWNOWN>" sentinel appears only when there is no label of any kind (same code: `get_label` in create_csv.py:9-24 and `_get_label` in entity_linker.py:62-77) |
| OntologyParser.GatherMember | entity_linker/ontology_parser.py:31-34 | a value is gathered if and only if one of the given properties has it |
| OntologyParser.PossibleLabels | entity_linker/ontology_parser.py:22-35 | the loop returns labels without duplicates that contain the best label and are exactly the best label and the five synonym properties' values (same code in create_csv.py:26-39 and entity_linker.py:40-53) |
| OntologyParser.PossibleLabelsMembers | create_csv.py:34-39 | the possible labels have no duplicates, contain the best label, and are exactly the best label plus the synonym values |
| OntologyParser.LabelEntries | entity_linker/ontology_parser.py:44-50 | entry i is descendant i's best label, IRI and normalized best label |
| OntologyParser.LabelIndexCharacterized | entity_linker/ontology_parser.py:37-51 | the index keys are exactly the descendants' normalized best labels, and each holds the entry of the last descendant normalizing to it |
| OntologyParser.NewParser | entity_linker/ontology_parser.py:8-20 | a new parser has roots for exactly Food and Process and keeps the loaded ontology |
| OntologyParser.GetIriLabelsData | entity_linker/ontology_parser.py:37-51 | the loop builds the normalized label index of the category root's descendants |
| OntologyParser.GetIriLabelsDataPerCategory | entity_linker/ontology_parser.py:53-61 | visiting the categories in `EntityType` order, the result has an index for exactly the categories with a root, each the index of that root's descendants |
| OntologyParser.PerCategoryKeys | entity_linker/ontology_parser.py:12-20 | with the FoodOn roots the per-category index has exactly Food and Process |
| GenerateKb.LoadedEntities | generate_kb.py:11-28 | when reading succeeds, both returned dicts are well formed: each id is listed once and has a value |
| GenerateKb.LoadedEntitiesKeys | generate_kb.py:20-26 | on success both dicts list the ids in order of first appearance among the rows |
| GenerateKb.LoadFoodEntities | generate_kb.py:20-26 | the loop over the CSV rows returns exactly `LoadedEntities` of the rows, including the IndexError of a short row |
| GenerateKb.LoadedEntitiesFailurePersists | generate_kb.py:20-23 | once a row with fewer than three cells has raised, later rows do not change the outcome |
| GenerateKb.LoadedEntitiesSucceeds | generate_kb.py:20-26 | reading succeeds if and only if every row has at least three cells |
| GenerateKb.LoadedEntitiesWritten | generate_kb.py:20-26 | on success the two dicts have the same ids in the same order, holding the name and the description columns as written row by row |
| GenerateKb.WrittenLastWins | generate_kb.py:25-26 | an id is present exactly when some row carries it, and its value is the cell of the LAST row carrying it |
| GenerateKb.LoadedEntitiesCharacterized | generate_kb.py:11-28 | the full contract of `load_food_entities`: success iff all rows are wide enough; then both dicts list the rows' first cells once each, in order of first appearance, and each id has the name and description of the last row with that id |
| GenerateKb.PowersetUpToMembers | generate_kb.py:46-49 | the combinations of sizes 1 to k are exactly the subsequences of those lengths |
| GenerateKb.PowersetMembers | generate_kb.py:46-52 | `generate_combinations` yields exactly the nonempty subsequences of the tokens |
| GenerateKb.PowersetUpToCount | generate_kb.py:46-49 | there are sum of C(n, r) for r = 1..k combinations of sizes 1 to k |
| GenerateKb.PowersetCount | generate_kb.py:46-52 | `generate_combinations` yields 2^n - 1 combinations |
| GenerateKb.PowersetOrdered | generate_kb.py:49 | `chain.from_iterable` lists smaller combinations before larger ones |
| GenerateKb.Tokens | generate_kb.py:58 | the tokens are duplicate-free and are exactly the parts of the name split on single spaces |
| GenerateKb.GenerateCandidates | generate_kb.py:57-69 | the nested loops produce exactly `Candidates(name)`, whose members `CandidatesMembers` characterizes |
| GenerateKb.AppendAliases | generate_kb.py:65-68 | the inner loop appends the nonempty stripped joins of the permutations, in order |
| GenerateKb.AliasesOfMembers | generate_kb.py:65-68 | the aliases of one combination are exactly the nonempty stripped space-joins of its rearrangements |
| GenerateKb.CandidatesMembers | generate_kb.py:57-69 | a name with more than seven distinct tokens is its only candidate; otherwise the candidates are exactly the nonempty stripped space-joins of rearrangements of nonempty token subsequences |
| GenerateKb.CandidatesNonempty | generate_kb.py:60-68 | no candidate is empty, and a generated alias has no leading or trailing whitespace |
| GenerateKb.TaggedMember | generate_kb.py:93-96 | the (alias, id) pairs of one entity are its aliases each paired with its own id |
| GenerateKb.GroupCharacterized | generate_kb.py:93-96 | after grouping, the aliases are listed once each in order of first occurrence, and each alias maps to the nonempty list of ids generated with it, in order |
| GenerateKb.GroupAliases | generate_kb.py:87-96 | the loop over `name_dict` builds the grouping of all (alias, id) pairs of the normalized names, in `name_dict` order |
| GenerateKb.GroupEach | generate_kb.py:89-96 | the outer loop keeps the grouping of the pairs of the entities seen so far |
| GenerateKb.GroupEntity | generate_kb.py:92-96 | one pass adds the pairs of exactly one more entity |
| GenerateKb.AddAliases | generate_kb.py:93-96 | the inner loop creates a missing alias with an empty list and appends the entity id, alias by alias |
| GenerateKb.GroupAliasesCharacterized | generate_kb.py:87-96 | an alias is a key exactly when it is an alias of some entity name, and an id is in its list exactly when the alias was generated from that id's name |
| GenerateKb.GroupAliasesKeys | generate_kb.py:89-96 | the keys of `aliases_to_qids` are exactly the aliases of the entity names |
| GenerateKb.QidsOfMembers | generate_kb.py:96 | an id is in an alias's list exactly when that (alias, id) pair was generated |
| GenerateKb.AliasProbabilities | generate_kb.py:99 | one probability per id |
| GenerateKb.ProbabilitiesSumToOne | generate_kb.py:99 | the probabilities of a nonempty id list are all equal and add up to one |
| GenerateKb.GroupProbabilities | generate_kb.py:98-99 | every alias handed to `add_alias` gets probabilities that add up to one |
| Itertools.SubsequenceLength | generate_kb.py:49 | a combination is no longer than the sequence it is drawn from |
| Itertools.PrefixedMember | generate_kb.py:49 | prefixing each combination with an element gives exactly the combinations that start with it |
| Itertools.CombinationsMembers | generate_kb.py:49 | `combinations(s, r)` yields exactly the subsequences of length r |
| Itertools.CombinationsCount | generate_kb.py:49 | `combinations(s, r)` yields C(len(s), r) items |
| Itertools.BinomialRowSum | generate_kb.py:49 | the combinations of all sizes number 2^n |
| Itertools.PermutationsMembers | generate_kb.py:54-55 | `permutations(s)` yields exactly the rearrangements of s (same multiset) |
| Itertools.PermutationIsRearrangement | generate_kb.py:54-55 | every permutation has the multiset of its input |
| Itertools.RearrangementIsPermutation | generate_kb.py:54-55 | every rearrangement of the input is yielded |
| Itertools.PermutationsCount | generate_kb.py:54-55 | `permutations(s)` yields len(s)! items |
| Strings.StripShape | generate_kb.py:66 | `strip()` leaves neither leading nor trailing whitespace, whitespace being what `str.isspace` accepts |
| Strings.StripUnicodeSpaces | entity_linker/commons.py:82 | `strip()` also removes the ideographic space and the no-break space: " apple" framed by them strips to "apple" |
| CreateCsv.DefinitionRule | create_csv.py:46-53 | the `td` column is the last textual definition when there is one, and "NONE" otherwise |
| CreateCsv.LabelRows | create_csv.py:45-50 | one row per label, in label order, each carrying the class, that label and the class's definition |
| CreateCsv.CsvWriter.constructor | create_csv.py:6-7 | a new writer has written no rows |
| CreateCsv.CsvWriter.WriteRow | create_csv.py:50 | `writerow` appends exactly one row |
| CreateCsv.WriteEntity | create_csv.py:45-53 | the inner loop appends the rows of the class for each of its possible labels, testing the definition per row |
| CreateCsv.WriteRows | create_csv.py:44-53 | the outer loop appends the rows of each descendant in order |
| CreateCsv.CreateCsv | create_csv.py:41-53 | a fresh writer ends up holding exactly the rows of the food-product class's descendants |
| CreateCsv.ExportRowsMember | create_csv.py:44-50 | a row is written exactly when it is some descendant's row for one of that descendant's possible labels |
| CreateCsv.ExportRowsCount | create_csv.py:44-45 | as many rows are written as there are (descendant, possible label) pairs |
| CreateCsv.ExportRowsDistinct | create_csv.py:44-50 | over distinct descendants no row is written twice |
| CreateCsv.UniqueRow | create_csv.py:44-50 | over distinct descendants each (descendant, possible label) pair has exactly one row |

## Left out

- File and disk I/O is not modelled. A directory is a map from path to contents plus the `os.listdir` order, the
  CSV writers are row sequences, and a CSV reader is its rows. This covers opening and writing the report,
  `os.listdir`, `json.load`, reading the `.txt` and `.ann` files, the pickle load and dump, `kb.to_disk` and
  `nlp.to_disk`.
- The pickle cache is a stored value or nothing. A corrupt or foreign pickle file is not modelled.
- owlready2 ontology loading and `IRIS[...]` are not modelled. A class is its IRI, an optional name and its
  annotation property values, and `descendants()` is a given sequence of such nodes for each root.
- `create_csv.py` writes the class object `c` into its first column, and the model writes the IRI. The
  module-level `open` and `csv.writer` setup is reduced to a fresh `CsvWriter`.
- spaCy (`spacy.load`, the tokenizer, `Defaults.stop_words`) and NLTK's `PorterStemmer` are an injected
  `Linguistics` value. It has a stopword set, a tokenize function and a stem function.
- The WordNet pieces are parameters: `pos_tag`, `word_tokenize`, `wn.synsets` and `path_similarity`.
  `_wordnet` is modelled from its averaging loop on: given the best score of each synset, or nothing when it
  could not be computed, the loop averages the computable ones.
- Floating-point rounding is not modelled. Scores, thresholds and probabilities are exact reals.
- `list(set(xs))` follows hash order in Python. The model keeps the first occurrence of each element (`Dedup`),
  and contracts about it speak only of membership and absence of duplicates.
- `get_entity_type`, `EntityType`, `read_brat_all_annotation_files` and `read_annotation_files` are imported by
  the linkers but are not defined in `entity_linker/commons.py`. `get_entity_type` and the two readers are not
  part of this model: a category's type is the linker parameter `entityTypeOf`, and each linker's documents are
  given. `OntologyParser.EntityType` is a ten-member enumeration with the order `AllEntityTypes`. Only its FOOD
  and PROCESS members appear in the source (entity_linker/ontology_parser.py:14-18), so the other eight members
  and the order are assumed. No contract depends on them beyond the fact that every member is visited once.
- TextProcessor.Normalize: idempotence is not claimed. Normalizing a normalized text can change it, so a key of
  a label index need not normalize to itself. Stopwords are removed before stemming, so a stem that is a stopword
  survives one pass and is removed by the next (`TextProcessor.NormalizeNotIdempotent`). A stemmer whose stems
  change when stemmed again breaks it too.
- Strings.ParseInt, Commons.GetFileId, Commons.ParseBratLine: Python's `int()` also accepts the decimal digits of
  other Unicode scripts, such as the Arabic-Indic digits. The model accepts ASCII digits only.
- Strings.IsWhitespace is the `str.isspace` set of the Unicode 15.0 database that Python 3.12 ships. Another
  Unicode version may add characters to it.
- `entity_linker/entity_linker.py` calls `get_IRI_labels_data(normalizator=...)`, a call that does not match that
  method's signature. That linker is given its normalized label index.
- The spaCy knowledge base is not modelled: `KnowledgeBase`, `add_entity`, the description vectors, and
  `add_alias` itself. The model states the `(alias, ids, probabilities)` arguments. The `kb` and `qid` parameters
  of `generate_candidates` are unused by its body and are dropped.
- `sample.py` (the Prodigy annotation recipe) is not modelled. Neither are the `argparse` entry points, the
  `main` functions or any `print` logging.
- The `itertools` generators are modelled in the orders CPython documents for `combinations` and `permutations`.
  `chain.from_iterable` is sequence concatenation.

## Findings

| source | as written | input that shows it | evidently intended | confidence | as-written member | corrected member |
|---|---|---|---|---|---|---|
| entity_linker.py:95-99, 133-134 | `TextComparator.similarity` divides by the size of the union with no guard, and `link` calls it for every label | a span and a label that both normalize to no words, e.g. an empty span against an empty label, raise ZeroDivisionError and abort the whole report | the guarded ratio of `set_similarity`, which is 0.0 when a side is empty | not executed | RootLinker.LinkOfEmptyTextFails | RootLinker.LinkGuardedIsBest |
| entity_linker/commons.py:44-46 | a text file is recognised by `f.endswith("txt")`, and its annotation path drops four characters | in the directory "7", the entry "1xtxt" is read as document 7 and given the annotations of "7/1.ann", which carry file id 1 | accept only names ending in ".txt", so that each is paired with its own stem's ".ann" and its annotations carry its own id | not executed | Commons.TxtSuffixWithoutDotDocument | Commons.TxtFileOwnAnnotations |
