# ESGnie topic post-processing, in Dafny

This project models the post-processing step of the ESGnie topic-modelling script. A trained
Top2Vec model has already assigned every target description a topic id and a confidence
score. The script then does four things:

- it maps each topic id to one of 25 hand-curated groups through an ordered table of id lists;
- it keeps the rows whose group is one of 13 emission-reduction activity groups;
- it re-examines the "SBTI (+IPCC) and SDA/ADA" group with a keyword rule (`detect_method_sbti`) and keeps the rows whose text mentions "decarbonization" or "sda";
- it concatenates the two selections into `complete_activities`.

Modules:

- `Results`: the `Result` type and the ways a library call can refuse its input.
- `Seqs`: boolean row masks (`Filter`), subsequences, duplicate-freedom and cardinality.
- `Text`: ASCII lower-casing and the substring test behind Python's `in`.
- `Groups`: the `conditions`/`choices` table, `np.select` with its input checks, the first-match group of a topic id, and the facts about the table. The 25 lists are pairwise disjoint, they cover exactly 0..74, and any reordering of the table gives the same groups.
- `Sbti`: `detect_method_sbti`.
- `Pipeline`: the document list, the document table, the activity and SDA/ADA selections, their union and the whole run.

The activity selection and the SDA/ADA selection cannot share a row, because the SBTI label is
not an activity group (`Pipeline.SelectionsDisjoint`). So the concatenation never duplicates a
row, even though the code does not deduplicate it.

`OwnerOf` in `Groups` is a proof device. It names, for each id 0..74, the list that holds it.
Disjointness and coverage of the table are proved from it rather than by unfolding the table.

## Model

| member | source | states |
|---|---|---|
| Groups.FirstTrue | Topic_Modeling_ESGnie.py:84 | The index found is the first condition that holds at or after the start, or the end if none holds; every condition before it is false |
| Groups.Select | Topic_Modeling_ESGnie.py:84 | `np.select` fails exactly when the numbers of conditions and choices differ or there is no condition at all; otherwise it gives the choice of the first true condition, or the default when no condition holds |
| Groups.IsIn | Topic_Modeling_ESGnie.py:29-53 | `isin` for one row gives one flag per id list, and flag i is true exactly when the topic id is in list i |
| Groups.Classify | Topic_Modeling_ESGnie.py:84 | Classifying a row fails exactly when the table's two lists differ in length or are empty. Which label it gives is stated by `Groups.ClassifyFirstMatch` |
| Groups.ClassifyFirstMatch | Topic_Modeling_ESGnie.py:28-84 | For any non-empty table with as many labels as lists, a row gets the label paired with the first list containing its id, in table order, or "None" when no list contains it |
| Groups.GroupOf | Topic_Modeling_ESGnie.py:84 | `np.select` never refuses the repository's table, and the group is the value it gives. Which label that is is stated by `Groups.GroupOfFirstMatch` and `Groups.GroupOfRange` |
| Groups.GroupOfFirstMatch | Topic_Modeling_ESGnie.py:28-84 | A topic id's group is the label paired with the first list containing it, in table order, or "None" when no list contains it |
| Groups.TableShape | Topic_Modeling_ESGnie.py:28-82 | There are 25 conditions and 25 choices, so `np.select` never refuses the table |
| Groups.OwnerSound | Topic_Modeling_ESGnie.py:29-53 | Every id in a list is owned by that list |
| Groups.OwnerComplete | Topic_Modeling_ESGnie.py:29-53 | Every id in 0..74 is in the list that owns it |
| Groups.Disjoint | Topic_Modeling_ESGnie.py:29-53 | No topic id appears in two different lists |
| Groups.Coverage | Topic_Modeling_ESGnie.py:29-53 | Some list contains a topic id if and only if the id lies in 0..74 |
| Groups.NoGroupNotAChoice | Topic_Modeling_ESGnie.py:56-84 | "None" is not one of the 25 labels, so it always means that no list matched |
| Groups.GroupOfListed | Topic_Modeling_ESGnie.py:28-84 | An id in list i gets label i |
| Groups.GroupOfRange | Topic_Modeling_ESGnie.py:28-84 | An id in 0..74 gets the label of its owning list. An id gets a real label (one of the 25 choices) exactly when it is in 0..74, and gets "None" otherwise |
| Groups.ClassifyDisjoint | Topic_Modeling_ESGnie.py:84 | With disjoint lists, an id in list i gets label i, whatever precedes it in the table |
| Groups.ReorderClassify | Topic_Modeling_ESGnie.py:84 | For disjoint lists, permuting the (condition, label) pairs does not change any id's group |
| Groups.ReorderInvariant | Topic_Modeling_ESGnie.py:28-84 | Any reordering of the repository's table assigns every topic id the same group as the table as written |
| Text.Lower | Topic_Modeling_ESGnie.py:106 | Lower-casing keeps the length, leaves no upper-case ASCII letter, shifts each A-Z letter by 32 and keeps every other character |
| Text.Contains | Topic_Modeling_ESGnie.py:106 | The left-to-right scan reports true exactly when the pattern occurs at some position of the string |
| Sbti.DetectMethod | Topic_Modeling_ESGnie.py:105-111 | The method is "SDA/ADA" or "N/A" and nothing else |
| Sbti.DetectMethodSpec | Topic_Modeling_ESGnie.py:105-111 | The method is "SDA/ADA" exactly when "decarbonization" or "sda" occurs somewhere in the lower-cased text |
| Sbti.CaseInsensitive | Topic_Modeling_ESGnie.py:105-111 | A text and its lower-cased form get the same method |
| Sbti.DecarbonizationPrefix | Topic_Modeling_ESGnie.py:106-107 | A text that starts with "decarbonization" in any mix of cases gets "SDA/ADA" |
| Sbti.DecarbonizationStrategy | Topic_Modeling_ESGnie.py:105-107 | "Decarbonization Strategy 2030" gets "SDA/ADA" |
| Sbti.MatchesInsideWords | Topic_Modeling_ESGnie.py:108-109 | The "sda" test is a plain substring test, so "by Tuesday" gets "SDA/ADA" |
| Seqs.SubsequenceMembers | Topic_Modeling_ESGnie.py:88-102 | A selection that keeps rows in order takes every row from the table and has no more rows than it |
| Seqs.Filter | Topic_Modeling_ESGnie.py:88-102 | A boolean mask keeps exactly the rows that satisfy it |
| Seqs.FilterSubsequence | Topic_Modeling_ESGnie.py:88-102 | A mask keeps the selected rows in their original order |
| Seqs.FilterCount | Topic_Modeling_ESGnie.py:88-102 | A mask keeps every copy of a selected row and no copy of any other row |
| Seqs.Map | Topic_Modeling_ESGnie.py:115 | `apply` gives one value per row, the function's value on that row |
| Seqs.FilterMap | Topic_Modeling_ESGnie.py:115-116 | Masking the mapped rows on a condition of the image is mapping the rows selected by the matching condition |
| Seqs.MapInverse | Topic_Modeling_ESGnie.py:115-118 | Adding a column and dropping it again gives back the rows |
| Seqs.FilterNoDup | Topic_Modeling_ESGnie.py:114-116 | Masking a duplicate-free table gives a duplicate-free table |
| Seqs.DisjointAppendNoDup | Topic_Modeling_ESGnie.py:117 | Concatenating two duplicate-free tables that share no row gives a duplicate-free table |
| Seqs.FilterDisjointUnion | Topic_Modeling_ESGnie.py:117 | Two masks that never both hold select, between them, the same rows as their disjunction, each as often, and so as many rows |
| Seqs.NoDupCardinality | Topic_Modeling_ESGnie.py:17 | A duplicate-free list has as many entries as it has distinct elements |
| Pipeline.UniqueDocs | Topic_Modeling_ESGnie.py:17 | The document list holds each distinct text of the column exactly once and nothing else |
| Pipeline.DocListLength | Topic_Modeling_ESGnie.py:17-24 | Any valid document list, in any order, has one entry per distinct text of the column |
| Pipeline.BuildFrame | Topic_Modeling_ESGnie.py:20-24 | Building the table fails exactly when the number of topic assignments differs from the number of documents (for an empty document list, see Left out). Otherwise row i holds document i with assignment i and the group of its topic id, and distinct documents give distinct rows |
| Pipeline.Activities | Topic_Modeling_ESGnie.py:88-102 | `activities_df` holds exactly the rows whose group is one of the 13 activity groups. It keeps every copy of such a row and no other row, in the original order, with fields unchanged, so it is no longer than the table |
| Pipeline.SbtiThenSda | Topic_Modeling_ESGnie.py:114-116 | Selecting the SBTI rows and then the rows whose text gets "SDA/ADA" is the single mask of both conditions |
| Pipeline.Tag | Topic_Modeling_ESGnie.py:115 | The `method` column has one entry per SBTI row, the keyword rule applied to that row's text, and leaves the row itself unchanged |
| Pipeline.DropMethod | Topic_Modeling_ESGnie.py:118 | Dropping the `method` column keeps every row, in order, with its original fields |
| Pipeline.SdaSelection | Topic_Modeling_ESGnie.py:114-116 | The three steps that build `sda_df` select the same rows, in the same order, as the single mask "SBTI group and method SDA/ADA" |
| Pipeline.CompleteActivities | Topic_Modeling_ESGnie.py:117-118 | `complete_activities` is the activity rows followed by the rows of the single SDA/ADA mask. What it holds as a set and as a multiset is stated by `Pipeline.CompleteActivitiesSpec` |
| Pipeline.SbtiNotActivity | Topic_Modeling_ESGnie.py:88-114 | The SBTI label is not one of the 13 activity groups |
| Pipeline.NoGroupNotActivity | Topic_Modeling_ESGnie.py:84-102 | "None" is not an activity group |
| Pipeline.SelectionsDisjoint | Topic_Modeling_ESGnie.py:88-117 | The SBTI label is not an activity group, so no row is in both the activity selection and the SDA/ADA selection |
| Pipeline.CompleteActivitiesSpec | Topic_Modeling_ESGnie.py:114-118 | `complete_activities` holds exactly the rows of the table that are activities or SDA/ADA targets, unchanged, with no `method` column. It is a reordering of the single mask "activity or SDA/ADA target": every row as often as there, so as many rows. It has no duplicates when the table has none |
| Pipeline.ExportedRowsAreGrouped | Topic_Modeling_ESGnie.py:84-117 | Every exported row of a grouped table has one of the 25 labels and never "None", so its topic id lies in 0..74 |
| Pipeline.Run | Topic_Modeling_ESGnie.py:17-118 | The run fails exactly when the column does not have 6712 distinct texts (for an empty column, see Left out). On success the table has 6712 rows with distinct texts and each text of the column appears in it. Row i carries the model's topic id and score for document id i, and every row is grouped by the table. The export is the activity rows followed by the SDA/ADA rows of the single mask: exactly the activity and SDA/ADA rows, without duplicates |
| Pipeline.Topic13Excluded | Topic_Modeling_ESGnie.py:28-102 | Topic 13 is "Discussion of Factories and Plants in Asia" and a row with it is not exported |
| Pipeline.OnlyRowExcluded | Topic_Modeling_ESGnie.py:88-117 | A one-row table whose group is neither an activity group nor the SBTI group exports nothing |
| Pipeline.Topic99Excluded | Topic_Modeling_ESGnie.py:84 | Topic 99 gets "None" and a row with it is not exported |
| Pipeline.DecarbonizationIncluded | Topic_Modeling_ESGnie.py:105-117 | A row with text "Decarbonization Strategy 2030" and a topic of the first list is in the SBTI group, gets "SDA/ADA", and is exported |

## Left out

- Loading the Top2Vec model and `get_documents_topics` (lines 11, 21-22) are calls into an external library. Their output, one (topic id, score) pair for each document id 0..6711, is the `assignments` parameter of `Run`. Its length is a precondition, since the library returns one pair per requested id. The Top2Vec model is queried twice; `Run` assumes both calls give the same answer.
- Reading the CSV and writing the two output files (lines 14, 122-123) are file I/O. `Run` returns the two tables instead.
- `topic_score` is a float. It is carried as a `real` that nothing inspects.
- Python's `set` has no defined iteration order (line 17). `UniqueDocs` returns one valid listing, the first occurrences in column order. `DocListLength` shows that every valid listing has the same length, so success or failure does not depend on the order. Which document gets which topic does depend on the order; the model does not fix it.
- A missing value (NaN) in the text column is out of scope. The model's texts are strings, so the `AttributeError` that `str.lower` would raise on a float is not modelled.
- Pipeline.BuildFrame: an empty document list is refused as a length mismatch. pandas instead builds the 6712-row index from the assigned column (line 23) and fills the text column with missing values, so the script carries on, and fails only at line 115 if some such row lands in the SBTI group. Missing texts are not modelled (see the NaN line above).
- Pipeline.Run: for the same reason, an empty text column makes `Run` fail, while the script may carry on and export rows with missing texts. For every non-empty column, `Run` fails exactly when the script fails at line 23.
- Text.Lower: only ASCII letters are lower-cased. Python's `str.lower` also folds non-ASCII letters.
- pandas index labels, view/copy semantics (the `SettingWithCopy` assignment at line 115) and the deprecated `DataFrame.append` (line 117) are left out. Tables are value sequences, and the temporary `method` column is a separate `Tagged` row type that is dropped.
