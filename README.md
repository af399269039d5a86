# jobmatch-agent: a verified model of the deterministic core

The jobmatch agent reads a job description and a resume, and asks a language
model to turn each into a structured record: `JDInfo` for the job and
`ResumeInfo` for the resume. It then scores their skill overlap in plain
Python with `_compute_match`, asks the model for advice, and returns all four
results as one dict.

This project models, in `src/agent.py`:

- the two records;
- the builders that turn the model's parsed JSON reply into a record: a
  missing key gives `""` or `[]`, and every string and list item is
  `.strip()`-ed;
- the overlap scorer `_compute_match`;
- the sequencing in `run_jobmatch_agent`.

Each language-model call appears as a function parameter that returns the
parsed reply or the exception the call raised.

Modules (one per file, one concept each):

| file | module | models |
|---|---|---|
| `wrappers.dfy` | `Wrappers` | `Result`: a Python exception that stops a computation part-way |
| `pystr.dfy` | `PyStr` | `str.lower`, `str.strip`, `str < str` |
| `sorting.dfy` | `Sorting` | `sorted(set)`: the unique strictly ascending list of a set |
| `json.dfy` | `Json` | the value `json.loads` returns, and a dict by key |
| `records.dfy` | `Records` | `JDInfo`, `ResumeInfo` and their builders |
| `record_properties.dfy` | `RecordProperties` | what the builders promise |
| `matching.dfy` | `Matching` | `_compute_match` |
| `match_properties.dfy` | `MatchProperties` | what the scorer promises |
| `match_examples.dfy` | `MatchExamples` | worked examples of the scorer |
| `pipeline.dfy` | `Pipeline` | `run_jobmatch_agent` |

Modelling choices:

- **Fractions are exact rationals.** They are Dafny `real` (rational)
  values, not floats. The score is the integer nearest to `70r + 30n`,
  where `r` and `n` are the two fractions.
- **Ties round to even.** A tie goes to the even neighbour, which is the rule
  Python's `round` applies to an exact tie. `round(x, 3)` on a fraction is
  modelled the same way, on multiples of 1/1000.
- **`sorted` of a set is its strictly ascending list**, in Python's string
  order (by code point, a proper prefix first). That list is unique
  (`Sorting.SortedListUnique`), so the result does not depend on how the set
  was built.
- **A list field iterates whatever `data.get` returns**, as Python does:
  - a list gives its elements;
  - a string gives its characters;
  - a dict gives its distinct keys, in the order of their first listing;
  - a number, a bool or null raises `TypeError`;
  - an element that is not a string raises `AttributeError` on `.strip()`.
  A text field that is not a string raises `AttributeError`.
- **The first failing field is the one reported.** Python evaluates the
  keyword arguments in order, so the first field that raises ends the
  construction. The record builders return a `Result` that names that
  field.

## Model

| member | source | states |
|---|---|---|
| Records.FirstNonString | src/agent.py:110-113 | the index of the first item that is not a string: it is not a string and every item before it is |
| Records.StripItems | src/agent.py:110-113 | `[s.strip() for s in items]` on a JSON array succeeds exactly when every item is a string; it keeps the length and order and strips each item; otherwise it fails at the first non-string item |
| Records.ReadField | src/agent.py:107-113 | one field succeeds exactly when Python gets through it (`Accepts`); the value is the default for a missing key, the stripped string, or the stripped items of the iterated value (`Holds`); a failure is the exception Python raises (`Explains`) |
| Records.ReadFields | src/agent.py:106-114 | the fields in keyword order: success exactly when every field is accepted, with each value as `Holds` says; a failure is explained by some field that every earlier field let through |
| Records.BuildJDInfo | src/agent.py:106-114 | `JDInfo(...)` is built exactly when all seven fields are accepted; each field holds its default or its stripped value; every string is stripped; a failure names the first field that raises |
| Records.BuildResumeInfo | src/agent.py:151-156 | the same for the four fields of `ResumeInfo(...)` |
| Records.HoldsStripped | src/agent.py:107-113 | a field value read as `Holds` says is stripped, whether text or list |
| RecordProperties.JDRoundTrip | src/agent.py:86-114 | a reply in the prompt's schema that holds an already trimmed job record builds back exactly that record |
| RecordProperties.ResumeRoundTrip | src/agent.py:134-156 | the same for a resume record |
| RecordProperties.EmptyReplyGivesJDDefaults | src/agent.py:106-114 | a reply with none of the job keys builds `JDInfo` with empty strings and empty lists |
| RecordProperties.EmptyReplyGivesResumeDefaults | src/agent.py:151-156 | a reply with none of the resume keys builds `ResumeInfo` with empty strings and empty lists |
| RecordProperties.EmptyReplyGivesDefaults | src/agent.py:107-113 | a reply with none of the keys gives empty strings and empty lists in both records |
| RecordProperties.ReadFieldsIgnoresOtherKeys | src/agent.py:106-114 | two replies that agree on every key of the schema are read alike |
| RecordProperties.BuildersIgnoreOtherKeys | src/agent.py:151-156 | adding or changing a key outside the schema (such as `soft_traits`) leaves both records unchanged |
| RecordProperties.ReadFieldOfTrimmed | src/agent.py:107-113 | a field read from the JSON of an already trimmed value of its kind is that value |
| RecordProperties.ReadFieldsOfTrimmed | src/agent.py:106-114 | fields read in order from the JSON of trimmed values give exactly those values |
| RecordProperties.HoldsTrimmedTail | src/agent.py:106-114 | a reply holding the JSON of trimmed values for a schema holds them for the schema's later fields too |
| RecordProperties.ReadFieldsStep | src/agent.py:106-114 | reading a schema is reading its first field and then the rest, the values joined in order |
| RecordProperties.DictKeysOfRepeatedKey | src/agent.py:54 | the object `{"go": a, "go": b}` has the single key `go` |
| RecordProperties.DictSkills | src/agent.py:154 | when the reply gives `skills` as a dict, the built resume's skills are that dict's distinct keys, stripped, in first-listing order |
| RecordProperties.RepeatedKeyAccepted | src/agent.py:151-156 | every field of `ResumeInfo` accepts `{"skills": {"go": a, "go": b}}` |
| RecordProperties.RepeatedKeyIteratedOnce | src/agent.py:151-156 | `{"skills": {"go": a, "go": b}}` builds a resume whose skills are exactly `["go"]`: a repeated key is iterated once |
| PyStr.IsSpace | src/agent.py:107 | the characters `strip` removes: tab, line feed, vertical tab, form feed, carriage return, U+001C to U+001F, and space |
| PyStr.Strip | src/agent.py:107 | the result has no whitespace at either end, is no longer than the input, and is empty exactly when the input is all whitespace |
| PyStr.StripPadded | src/agent.py:107 | stripping any whitespace padding off a trimmed string gives back that string |
| PyStr.StripSplits | src/agent.py:107 | every string is leading whitespace, then its strip, then trailing whitespace |
| PyStr.StripOfStripped | src/agent.py:107 | a trimmed string is left unchanged by `strip` |
| PyStr.StripIdempotent | src/agent.py:107 | stripping twice is stripping once |
| PyStr.Lower | src/agent.py:165 | the result has the same length, with each character lowercased |
| PyStr.LowerIdempotent | src/agent.py:165-167 | `lower` leaves no uppercase letters and is idempotent; it fixes exactly the strings with no uppercase letters |
| PyStr.LowerEqualIff | src/agent.py:165-167 | two strings lower to the same string exactly when they agree character by character up to case |
| PyStr.Less | src/agent.py:169-172 | the order `sorted` uses holds exactly when the first string is a proper prefix of the second or is smaller at the first position where they differ |
| PyStr.LexicographicShift | src/agent.py:169-172 | with equal first characters, two strings compare as their tails do |
| PyStr.LexicographicHeads | src/agent.py:169-172 | with different first characters, the first character decides the order |
| PyStr.LessIrreflexive | src/agent.py:169-172 | no string sorts before itself |
| PyStr.LessTransitive | src/agent.py:169-172 | the string order is transitive |
| PyStr.LessTotal | src/agent.py:169-172 | of two different strings, one sorts before the other |
| PyStr.LessAsymmetric | src/agent.py:169-172 | two strings never sort before each other |
| Sorting.Insert | src/agent.py:169-172 | inserting into a strictly sorted list keeps it strictly sorted and adds exactly the one element |
| Sorting.SortedElems | src/agent.py:169-172 | `sorted(set(xs))`: a strictly ascending list of exactly the elements of `xs` |
| Sorting.SortedListUnique | src/agent.py:169-172 | a set has only one strictly ascending list |
| Sorting.SortedElemsCanonical | src/agent.py:169-172 | two lists with the same elements give the same sorted list, whatever their order or repeats |
| Sorting.SortedLength | src/agent.py:169-172 | a strictly sorted list has no repeats: its length is the size of its set |
| Sorting.Keep | src/agent.py:169-171 | the sorted list filtered to a set is the sorted list of the intersection |
| Sorting.Drop | src/agent.py:170-172 | the sorted list filtered to the complement is the sorted list of the difference |
| Json.FirstIndex | src/agent.py:54 | the first position at which an object lists a key: it lists the key there and nowhere before |
| Json.DictKeys | src/agent.py:110-113 | iterating the dict of an object yields each listed key exactly once, no other key, in the order of first listing |
| Json.ObjectMap | src/agent.py:54 | the dict of an object holds exactly its listed keys; a key listed only once, or listed last, maps to the value listed there |
| Matching.LowerSet | src/agent.py:165-167 | `{s.lower() for s in xs}` holds the lowercase form of every skill and nothing else, so nothing with a capital; it is no larger than the list and empty exactly when the list is |
| Matching.LowerAll | src/agent.py:165-167 | each skill lowercased, same length and order; as a collection it is exactly the lowercase set `LowerSet(xs)` |
| Matching.ResumeSkillSet | src/agent.py:165 | the resume's pool is the lowercase set of its skills joined with that of its tools |
| Matching.Fraction | src/agent.py:175-176 | the fraction lies in [0, 1]; it is 1.0 for an empty category; times the category size it gives the matched count; for a non-empty category (total > 0) it is 1 exactly when all are matched and 0 exactly when none are |
| Matching.RoundHalfEven | src/agent.py:178 | `round` gives an integer within one half of the input, and an even one on a tie |
| Matching.RoundHalfEvenUnique | src/agent.py:178 | those two properties single out the result |
| Matching.Round3 | src/agent.py:182-183 | `round(x, 3)` gives a multiple of 1/1000 within 0.0005 of `x`; a tie goes to the even multiple; it stays in [0, 1] and maps 1 to 1 and 0 to 0 |
| Matching.OverallScore | src/agent.py:178 | the score lies in 0..100, is the integer nearest to `70r + 30n`, the even one on a tie, and is 100 when both fractions are 1 |
| Matching.CategoryScore | src/agent.py:175-176 | a category's covered share lies in [0, 1], is 1 for an empty category, and times the category's lowercase size is the number of its skills in the pool |
| Matching.RequiredScore | src/agent.py:175 | `required_score` lies in [0, 1], is 1 when no skill is required, and is otherwise the covered required skills over the required skills, as lowercase sets |
| Matching.NiceScore | src/agent.py:176 | `nice_score`: the same for the nice-to-have skills |
| Matching.SplitCategory | src/agent.py:169-172 | the matched and missing lists of a category are the sorted lists of its intersection with the pool and its difference from it |
| Matching.ComputeMatch | src/agent.py:160-188 | the four lists are the sorted lists of the lowercase job sets intersected with, and minus, the resume's lowercase pool; the score and the two rounded fractions come from the exact category scores |
| MatchProperties.CategoryPartition | src/agent.py:169-172 | the matched and missing lists of a category are disjoint, their union is the category, and their lengths add up to its size |
| MatchProperties.MatchPartition | src/agent.py:166-172 | in the result, the matched and missing lists split each lowercase job category |
| MatchProperties.MatchIsCaseInsensitive | src/agent.py:165-171 | a string is in a matched list exactly when it is the lowercase form of some job skill and of some resume skill or tool |
| MatchProperties.SkillsEqualUpToCaseMatch | src/agent.py:165-171 | a required skill and a claimed skill or tool that agree up to case make a match and not a miss |
| MatchProperties.SortedListOfNothing | src/agent.py:169-172 | `sorted` of the empty set is the empty list |
| MatchProperties.EmptyCategoryIsSatisfied | src/agent.py:175-176 | an empty category has fraction 1.0 and empty matched and missing lists, whatever the resume |
| MatchProperties.RequiredShareIsMatchedCount | src/agent.py:169-175 | for a non-empty required category, `required_score` is the length of the reported matched list over the category's size |
| MatchProperties.NiceShareIsMatchedCount | src/agent.py:171-176 | the same for the nice-to-have category |
| MatchProperties.FractionIsShareOfCategory | src/agent.py:175-176 | each fraction lies in [0, 1]; for a non-empty category it is the length of the reported matched list over the category's size |
| MatchProperties.MatchedCounts | src/agent.py:175-176 | each matched list's length is the number of covered skills in its category |
| MatchProperties.FullFractionIffCovered | src/agent.py:175-176 | a category's fraction is 1 exactly when the resume covers all of it |
| MatchProperties.CoveredIffSameSize | src/agent.py:175-176 | a category meets the pool in all of its elements exactly when it lies within the pool |
| MatchProperties.ScoreBounds | src/agent.py:175-178 | the score lies in 0..100; with every skill covered it is 100 and both missing lists are empty |
| MatchProperties.ZeroScoreNeedsBothCategories | src/agent.py:175-178 | a score of 0 needs both lowercase categories to be non-empty |
| MatchProperties.NothingMatchedScoresZero | src/agent.py:175-178 | with both categories non-empty and nothing matched, the score is 0 |
| MatchProperties.ShareWorthMoreThanHalf | src/agent.py:178 | a share `f` of `total` items that covers at least one of them, with `total < 2 * weight`, is worth more than half a point at that weight |
| MatchProperties.CoveredShareAtLeastOne | src/agent.py:175-176 | a category with a covered skill is non-empty, and its fraction times its size is at least 1 |
| MatchProperties.CoveredRequiredWorthHalf | src/agent.py:175-178 | a required category of fewer than 140 skills with a covered skill adds more than half a point at weight 70 |
| MatchProperties.CoveredNiceWorthHalf | src/agent.py:176-178 | a nice-to-have category of fewer than 60 skills with a covered skill adds more than half a point at weight 30 |
| MatchProperties.ZeroScoreMeansNoRequiredCoverage | src/agent.py:175-178 | a score of 0 with fewer than 140 required skills means the resume covers none of them |
| MatchProperties.ZeroScoreMeansNoNiceCoverage | src/agent.py:176-178 | a score of 0 with fewer than 60 nice-to-have skills means the resume covers none of them |
| MatchProperties.ZeroScoreMeansNoCoverage | src/agent.py:175-178 | for fewer than 140 required and 60 nice-to-have skills, a score of 0 means the resume covers none of either |
| MatchProperties.ZeroScoreMeansNothingMatched | src/agent.py:175-178 | under the same size bounds, a score of 0 means both matched lists are empty |
| MatchProperties.OneMatchCanScoreZero | src/agent.py:175-178 | without the bound, 1 match of 140 required skills (and 1 of 141) scores 0, while 1 of 139 scores 1 |
| MatchProperties.TiesRoundToEven | src/agent.py:178-182 | 17.5 rounds to 18, 52.5 rounds to 52, and `round(0.0625, 3)` is 0.062 |
| MatchProperties.MatchDependsOnlyOnSkillSets | src/agent.py:165-188 | the result depends only on the lowercase required and nice-to-have sets and the resume's lowercase pool: not on order, repeats, case, or any other field |
| MatchProperties.SkillsAndToolsArePooled | src/agent.py:165 | swapping skills and tools, or changing any field the scorer does not read, leaves the result unchanged |
| MatchExamples.MatchResultFromLists | src/agent.py:169-188 | once the four lists are known to be the sorted lists of the four sets, the whole result is fixed |
| MatchExamples.PartialMatchSets | src/agent.py:165-167 | the lowercase sets of the first example: `{python}`, `{python, sql}`, `{docker}` |
| MatchExamples.PartialMatchNumbers | src/agent.py:175-183 | in the first example, the required fraction is 0.5, the nice fraction 0.0, and the score 35 |
| MatchExamples.PartialMatchExample | src/agent.py:160-188 | required [python, sql], nice [docker] and resume [python] give score 35, fractions 0.5 and 0.0, matched [python], missing [sql], nothing nice matched, and [docker] missing |
| MatchExamples.LowerPythonSql | src/agent.py:166 | `{s.lower() for s in ["Python", "SQL"]}` is `{python, sql}` |
| MatchExamples.LowerPythonSqlJava | src/agent.py:165 | `{python, sql, java}` is already its own lowercase set |
| MatchExamples.FullMatchSets | src/agent.py:165-167 | the lowercase sets of the second example: `{python, sql}`, the empty set, and `{python, sql, java}` |
| MatchExamples.SortedPythonSql | src/agent.py:169 | `sorted({python, sql})` is `[python, sql]` |
| MatchExamples.FullMatchNumbers | src/agent.py:175-183 | with every required skill covered and no nice-to-have skills, both fractions are 1.0 and the score is 100 |
| MatchExamples.FullMatchExample | src/agent.py:160-188 | required [Python, SQL] against resume [python, sql, java] gives both matched, nothing missing, fractions 1.0 and score 100 |
| Pipeline.ReplyObject | src/agent.py:54-104 | the reply is usable exactly when the call succeeded and returned an object; a failed call is reported with its stage, and so is a non-object reply |
| Pipeline.ExtractJD | src/agent.py:104-114 | the job record is the builder's record on the reply object; a failed call or a non-object reply is passed on as `ReplyObject`'s error, and a field that raises is reported as `RecordFailed` with the builder's error, both tagged as job extraction |
| Pipeline.ExtractResume | src/agent.py:149-156 | the same for the resume record: a failed call or a non-object reply gives `ReplyObject`'s error, and a field that raises gives `RecordFailed` with the builder's error, both tagged as resume extraction |
| Pipeline.RunJobMatchAgent | src/agent.py:262-272 | the run succeeds exactly when both extractions and the advice call succeed; the report holds the two records, the scorer's match on them and the advice; otherwise the first failing step's error is returned |
| Pipeline.ReportIsConsistent | src/agent.py:262-272 | in a successful report, both records are trimmed, the score lies in 0..100, and the match is the scorer's on the two records |
| Pipeline.AdviceDoesNotChangeMatch | src/agent.py:264-265 | whatever the advice call answers, the records and the match in the report stay the same |

## Left out

- `_call_llm_json` (src/agent.py:41-54): the chat-completion request and `json.loads` are network I/O. Each call is a function parameter returning a parsed value or an error.
- Prompt construction in `_extract_jd_info`, `_extract_resume_info` and `_generate_advice` (src/agent.py:58-103, 118-148, 199-246): this is string templating sent to the model. The model's answers are the parameters.
- `_generate_advice` (src/agent.py:191-248): its result is passed through untouched as a `JsonValue`.
- Module-level client and environment setup (src/agent.py:10-15): configuration only.
- src/api/main.py and src/parsing.py are not part of this model. The first is HTTP routing and PDF text extraction; the second holds unused placeholder stubs.
- Matching.OverallScore: the model uses exact rationals with ties to even, not IEEE-754 doubles. Python computes `0.7`, `0.3`, the product and `round(..., 3)` in floating point, so on a near-tie the float result can differ from the exact one by one unit.
- Matching.Round3: this is the same exact-rational choice, for `round(x, 3)` on the reported fractions.
- PyStr.Lower: only ASCII `A`-`Z` are lowercased. Python's `str.lower` also maps non-ASCII letters.
- PyStr.IsSpace, PyStr.Strip: only the ASCII characters that Python's `str.isspace` accepts are whitespace. Python also strips Unicode spaces such as U+00A0 and U+2028.
- Exceptions are reported but not their messages: an `AgentError` says which step failed and why, but gives no text.
- MatchProperties.ZeroScoreMeansNothingMatched: this is weaker than "score 0 only when nothing matches", because that statement is false for large categories (see `MatchProperties.OneMatchCanScoreZero`). It is proved for fewer than 140 required and 60 nice-to-have skills.
