# Resume analyzer core, modelled in Dafny

This project models the decision logic of the resume-analysis server in
`server/main.py`. The server has three request handlers.

- `upload_resume` picks a text extractor from the file name's suffix. It
  refuses other suffixes and refuses a document whose text is blank. Both
  refusals are HTTP 400.
- `extract_skills` refuses a missing or empty text with 400. Otherwise it runs
  a named-entity recogniser over the text. It sorts the entity words into
  organisations, locations and persons. It admits as skills the entity words
  whose lower-case form contains one of 41 keywords, and then the regular
  expression matches. Each of the four lists is de-duplicated through a set.
- `analyze_skills` refuses a missing or empty skills list with 400. For each
  of seven fixed skill categories it does three things:
  - it scores the similarity between the user's skills and the category;
  - it labels the score Strong (above 0.7), Moderate (above 0.5) or Weak;
  - it collects the category skills the user lacks, compared case-insensitively.

  A category whose score is below 0.7 and which lacks something recommends
  its first two missing skills. The response carries:
  - the three best categories, by a stable descending sort;
  - at most ten distinct recommendations.

Modules:

- `Wrappers`: `Option`, `Result` and the HTTP error value.
- `Text`: lower-casing, `str.strip`, suffix and substring tests, `" ".join`.
- `Seqs`: duplicate-freedom, sub-sequences, and the method `Distinct`. `Distinct`
  models `list(set(xs))`: it fixes no order, only the contents.
- `Upload`: `upload_resume`.
- `SkillExtraction`: the accumulation loops and the response of `extract_skills`.
- `Ranking`: the stable descending sort by score and the top-three cut.
- `SkillAnalysis`: the category table, the labels, missing skills,
  recommendations and `analyze_skills`.

The language models are not part of the model; their outputs become inputs:
- the entities the recogniser finds;
- the regular-expression matches;
- the similarity, given as a function from (user text, category text) to a real.

The model keeps these details of `server/main.py`:
- The strength thresholds are strict: Strong above 0.7, Moderate above 0.5.
- Only categories scoring below 0.7 that lack at least one skill recommend.
- Ties in the ranking keep table order, because Python's sort is stable.
- The top list is cut to three entries.
- The recommendations are the de-duplicated set, in the order the set
  yields, cut to ten.

## Model

| member | source | states |
|---|---|---|
| Text.LowerChar | server/main.py:232 | ASCII capitals map to their lower-case letter and every other character is unchanged |
| Text.TrimStart | server/main.py:95 | the result is a suffix of the input, everything dropped is whitespace, and the result does not start with whitespace |
| Text.TrimEnd | server/main.py:95 | the result is a prefix of the input, everything dropped is whitespace, and the result does not end with whitespace |
| Text.LowerIdempotent | server/main.py:144 | `Text.Lower` (`s.lower()`) keeps the length, and lower-casing twice is lower-casing once |
| Text.ContainsAt | server/main.py:156 | `Text.Contains` (`keyword in entity_text`) holds whenever the keyword occurs at some offset |
| Text.ContainsWitness | server/main.py:156 | when `Text.Contains` holds, the keyword occurs at some offset (the converse of `ContainsAt`) |
| Text.EndsWithAppend | server/main.py:85-87 | `Text.EndsWith` (`str.endswith`) holds for every stem followed by the suffix |
| Text.EndsWithSplit | server/main.py:85-87 | a string for which `Text.EndsWith` holds is some stem followed by the suffix (the converse of `EndsWithAppend`) |
| Text.Strip | server/main.py:95 | `text.strip()` is no longer than the text and neither of its ends is whitespace; `StripMiddle` places it inside the text |
| Text.StripMiddle | server/main.py:95 | `text.strip()` is a contiguous piece of the text, and everything before it and everything after it is whitespace |
| Text.MiddlePiece | server/main.py:95 | dropping a blank head and then a blank tail leaves the middle of the text between two blank ends |
| Text.StripEmptyIffBlank | server/main.py:95 | `text.strip()` is empty exactly when every character of the text is whitespace |
| Text.Join | server/main.py:213 | joining nothing gives the empty string and joining one item gives that item |
| Text.JoinAppend | server/main.py:213 | appending an item to a non-empty list appends the separator and then the item |
| Text.JoinLength | server/main.py:221 | the joined text is as long as all items together plus one separator between each neighbouring pair |
| Seqs.NoDuplicatesCardinality | server/main.py:176 | a duplicate-free list has as many elements as its set |
| Seqs.NoDuplicatesPrefix | server/main.py:242 | cutting a duplicate-free list (`[:10]`) keeps it duplicate-free |
| Seqs.Distinct | server/main.py:176-179 | `list(set(xs))`: duplicate-free, exactly the members of `xs`, and as long as the set of `xs` |
| Upload.SelectExtractor | server/main.py:85-93 | PDF exactly for a `.pdf` suffix; DOCX exactly for `.doc` or `.docx` without `.pdf`; otherwise 400 "Unsupported file type" |
| Upload.SuffixDecides | server/main.py:85-93 | the choice depends only on the suffix, matched case-sensitively: `.PDF` and `.txt` are refused |
| Upload.ExtractText | server/main.py:54-93 | an unsupported suffix gives 400 "Unsupported file type…"; the failure of the chosen extractor gives 400 with "Error reading PDF: " or "Error reading DOCX: " before its message; success happens exactly when the chosen extractor succeeds, and returns that extractor's text |
| Upload.UploadResume | server/main.py:80-103 | every refusal is 400: "Unsupported file type…" for an unsupported suffix, the extractor's error passed through, and "No text found in the document" for blank text; success exactly when the suffix is accepted, extraction succeeds and the text is not blank; the response echoes the filename, the text and its length |
| SkillExtraction.SkillWordIgnoresCase | server/main.py:144-156 | `IsSkillWord` (a keyword in the lower-cased word) admits a word exactly when it admits the word's lower-case form |
| SkillExtraction.KeywordAdmits | server/main.py:156 | a word whose lower-case form contains one of the 41 keywords at some offset is admitted |
| SkillExtraction.AddIfAbsent | server/main.py:157-158 | the guarded append adds exactly the new item, keeps duplicate-freedom, and keeps the old list as a prefix |
| SkillExtraction.EntitySkills | server/main.py:143-158 | the skills from the entity loop are duplicate-free and are exactly the entity words whose lower-case form contains a keyword |
| SkillExtraction.AddMatches | server/main.py:168-172 | appending the matches keeps the earlier skills as a prefix, keeps the list duplicate-free, and adds exactly the matches |
| SkillExtraction.Bucket | server/main.py:148-153 | a bucket holds exactly the words of the entities of its group and is no longer than the entity list |
| SkillExtraction.BucketsPartition | server/main.py:148-153 | every entity lands in at most one of ORG, LOC and PER: the three bucket sizes plus the unbucketed ones add up to the entity count |
| SkillExtraction.Skills | server/main.py:143-172 | the skill list is duplicate-free and holds exactly the keyword-bearing entity words and the matches |
| SkillExtraction.Accumulate | server/main.py:143-172 | the two loops build exactly the skill list and the three group buckets |
| SkillExtraction.ExtractSkills | server/main.py:116-180 | 400 "Text is required" exactly for a missing or empty text; otherwise four duplicate-free lists with the same members as the accumulated lists, and the entity count |
| Ranking.SortByScore | server/main.py:239 | the sort keeps the length and the multiset of items; `SortByScoreCorrect` proves it descending and stable |
| Ranking.TopCategories | server/main.py:239 | `[:3]` of the sorted items has min(3, n) items drawn from the scores; `TopCategoriesCorrect` gives the ordering facts |
| Ranking.Insert | server/main.py:239 | the result's multiset is the list's plus the inserted item |
| Ranking.InsertSorted | server/main.py:239 | inserting into a descending list keeps it descending |
| Ranking.InsertWithScore | server/main.py:239 | inserting places the new item before the existing items of its score, which come later in the input, and leaves the other scores' items unchanged, as the stable sort needs |
| Ranking.SortByScoreCorrect | server/main.py:239 | the sort is descending, a permutation, and stable: the items of each score keep their original order |
| Ranking.WithScorePrefix | server/main.py:239 | the items of one score in a prefix form a prefix of that score's items |
| Ranking.SortedSplit | server/main.py:239 | in a descending list nothing after a cut scores more than anything before it |
| Ranking.TopCategoriesCorrect | server/main.py:239 | the top list has min(3, n) items, is descending, is drawn from the scores, outranks every item left out, and breaks ties by table order |
| SkillAnalysis.Classify | server/main.py:249 | Strong exactly above 0.7; Moderate exactly for scores in (0.5, 0.7]; Weak exactly at 0.5 or below |
| SkillAnalysis.ClassifyMonotone | server/main.py:249 | a higher score never gets a weaker label |
| SkillAnalysis.LowerAll | server/main.py:232 | `[s.lower() for s in skills]` has one lower-cased entry per skill, in order |
| SkillAnalysis.LoweredMembership | server/main.py:232-233 | `s.lower() in user_skills_lower` holds exactly when some user skill matches `s` case-insensitively |
| SkillAnalysis.MissingFrom | server/main.py:233 | the filter is no longer than the category list; `MissingFromIff` gives its order and members |
| SkillAnalysis.MissingFromIff | server/main.py:233 | the filter keeps category order and keeps exactly the skills whose lower-case form is not listed |
| SkillAnalysis.Missing | server/main.py:232-233 | `missing` is no longer than the category list; `MissingIff` gives its order and members |
| SkillAnalysis.MissingIff | server/main.py:231-233 | `missing` keeps category order and holds exactly the category skills that no user skill matches case-insensitively |
| SkillAnalysis.Scores | server/main.py:217-229 | one (name, score) pair per category, in table order, each scored by the similarity of the two joined texts |
| SkillAnalysis.Recommendations | server/main.py:235-236 | before de-duplication there are at most two recommendations per category |
| SkillAnalysis.Contribution | server/main.py:235-236 | `missing[:2]` under the gate: at most two skills, a prefix of `missing`, and non-empty exactly when the category lacks something and scores below 0.7 |
| SkillAnalysis.Added | server/main.py:231-236 | one category adds at most two skills |
| SkillAnalysis.ContributionIff | server/main.py:235-236 | a category adds a skill exactly when it lacks something, scores below 0.7, and the skill is among its first two missing |
| SkillAnalysis.UngatedContributesNothing | server/main.py:235 | a category that lacks nothing or scores 0.7 or more adds nothing |
| SkillAnalysis.RecommendationsIff | server/main.py:220-236 | a skill is recommended exactly when some category adds it |
| SkillAnalysis.RecommendationsNotOwned | server/main.py:231-236 | no recommendation matches one of the user's skills case-insensitively |
| SkillAnalysis.RecommendationsPrefix | server/main.py:218-236 | the recommendations of the first n categories are a prefix of those of the whole table, because the list only grows by `extend` |
| SkillAnalysis.ContributionPosition | server/main.py:236 | a category's added skills sit after everything earlier categories added and before anything later ones add |
| SkillAnalysis.SharedRecommendationRepeats | server/main.py:236-242 | when two categories both add a skill it appears twice before de-duplication, which is why `list(set(...))` is applied |
| SkillAnalysis.GitInTwoCategories | server/main.py:207-209 | "Git" is listed under both "Cloud & DevOps" and "Tools & Others" |
| SkillAnalysis.TableNamesDistinct | server/main.py:202-210 | the seven category names are distinct |
| SkillAnalysis.CategoryAnalysis | server/main.py:246-251 | the keys are exactly the category names, and each entry carries a score of that category and the label of that score |
| SkillAnalysis.CategoryAnalysisExact | server/main.py:246-251 | with distinct names, each category's entry is its own score and that score's label |
| SkillAnalysis.ScoreCategories | server/main.py:217-236 | the category loop builds exactly the per-category scores and the recommendations before de-duplication |
| SkillAnalysis.AnalyzeSkills | server/main.py:194-255 | 400 "Skills list is required" exactly for a missing or empty list; otherwise: the labelled analysis of every category; the stable top three; min(10, distinct count) distinct recommendations drawn from the collected ones, none matching a user skill; and the skill count |

## Left out

- PDF and DOCX text extraction (`fitz`, `python-docx`) is not modelled. Each extractor's outcome is an input: a text, or an error message.
- Reading the upload and a `None` filename are not modelled. The filename is always a string.
- The named-entity recogniser and its lazy loading are not modelled. Its entities are an input.
- The regular-expression search in `extract_skills` is not modelled. Word boundaries and case-insensitive alternation are outside the model; the matches are an input, in order.
- The sentence-embedding model, the cosine similarity (numpy `dot`/`norm`) and floating point are not modelled. The similarity is an injected function to `real`; NaN and rounding error are not modelled.
- `round(score, 3)` in the response is not modelled. Scores are reported unrounded, and the label is taken from the unrounded score, as the code does.
- The iteration order of `set` is not modelled. `Seqs.Distinct` may return any order, so which ten recommendations survive the cut is stated only as a subset of the right size.
- SkillAnalysis.CategoryAnalysis: `category_analysis` is a `map`, so the model does not keep the table order of its keys that the Python dict keeps in the response.
- Text.LowerChar: only ASCII letters are lower-cased. Python's `str.lower` also folds other Unicode letters.
- Anything that raises inside the handlers is turned into HTTP 500 by the catch-all `except`. This path is not modelled: nothing in the modelled logic raises.
- Non-list skills and non-string items in the request body are not modelled. The input types are `seq<string>` and `string`.
- The `/` and `/health` endpoints, CORS and server start-up are not modelled. They hold no decision logic.
- JSON serialisation and the `"success": true` field are not modelled. The response types are plain values.
