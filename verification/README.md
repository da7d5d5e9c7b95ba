# Hiring-prediction service and training-data cleaning, modelled in Dafny

This project models the pure core of a small hiring-prediction system written
in Python (Flask, pandas, scikit-learn):

- **The `/predict` handler** (`app.py`). A request body is checked against an
  ordered table of seven required fields and their Python types
  (`tipos_esperados`), stopping at the first field that is absent
  ("Campo ausente") or of the wrong type ("Tipo inválido"). A JSON boolean
  passes the `int` check because `bool` is a subclass of `int` in Python. An
  accepted request is classified with `previsao = 1` iff the model's
  probability is at least 0.35. The probability is then appended to the drift
  window, a `deque(maxlen=100)`, and the drift score is the distance of the
  window's mean from the training-time mean 0.62.
- **The data preparation of the training script** (`train_model.py`). Nested
  prospect lists are flattened into one row per (job, prospect). Each row is
  labelled a hire when its lower-cased status contains "contratado". The
  merged table then goes through these cleaning stages in order:
  1. keep the rows whose label is 0 or 1;
  2. default a blank professional level to "Desconhecido";
  3. drop the rows whose academic level is blank;
  4. default blank English and Spanish levels to "Nenhum";
  5. reduce the free-text area to one of ten categories (`tratar_area`).

  The categories come from ordered prefix tests on the stripped text.

Modules, one per file:

| module | file | contents |
|---|---|---|
| `Text` | Text.dfy | Python's whitespace set, `strip`, ASCII `lower`, `startswith`, substring search |
| `Optional` | Optional.dfy | `Option` for missing values (`NaN`/`None`) |
| `Json` | Json.dfy | the decoded JSON body and Python's `type(v).__name__` |
| `Validator` | Validator.dfy | the field table, the first-failure-wins walk and its error texts |
| `Drift` | Drift.dfy | the 100-entry window, its mean and the drift score |
| `Handler` | Handler.dfy | one request end to end, and a run of requests |
| `Prospects` | Prospects.dfy | flattening and the hire label |
| `Area` | Area.dfy | `tratar_area` as an ordered rule table |
| `Cleaning` | Cleaning.dfy | the blank-normalisation stages and the cleaned table |

The code fixes the decision threshold at 0.35 (`app.py:82`); the model uses
the constant `Handler.Threshold`.

## Model

| member | source | states |
|---|---|---|
| Validator.CheckField | app.py:75-79 | one field passes iff it is present and of the declared type; a failure names that field, and it is a missing-field failure iff the key is absent; a type mismatch carries the declared type and the Python type name of the received value |
| Validator.ValidateAgainst | app.py:74-79 | the verdict is Ok iff every field of the table conforms; otherwise it is the failure of some field all of whose predecessors conform |
| Validator.ValidateChecksEveryField | app.py:64-79 | `Validate`, the walk over `tipos_esperados`: a request passes iff each of the seven fields is present with its declared type; a refusal is the verdict of the first field that is not |
| Validator.IdadeRefused | app.py:65-79 | an `idade` of any type other than `int` or `bool`, in any body, is refused on `idade` as an int-expected mismatch naming the type received |
| Validator.TypeNameAgrees | app.py:77-79 | `type(v).__name__` agrees with `isinstance`: the int check passes exactly the values named "int" or "bool", the str check exactly those named "str" |
| Validator.FirstFailureWins | app.py:74-79 | when field i is the first that fails, the verdict is field i's own failure, whatever later fields hold |
| Validator.ValidateLoop | app.py:74-79 | the loop that returns at the first failure computes the same verdict as the table walk |
| Validator.ExtraKeysIgnored | app.py:74-79 | adding keys that are not in the table never changes the verdict |
| Validator.OnlyDeclaredKeysMatter | app.py:74-79 | two bodies that agree on the declared keys get the same verdict |
| Validator.IsInstanceTable | app.py:65-71 | the int check accepts ints and booleans and refuses strings, floats (even integral ones) and null; the str check accepts strings only |
| Validator.MessageNamesField | app.py:76-79 | a missing-field text is its prefix followed by the field name; a type-mismatch text has the field name right after its own prefix; no text carries both prefixes |
| Validator.MissingMessage | app.py:75-76 | the missing-field text is "Campo ausente: " followed by the field name, and never begins like a type-mismatch text |
| Validator.MismatchMessage | app.py:77-79 | the type-mismatch text is "Tipo inválido para '", the field name, then "'. Esperado ", the declared type's name, ", recebido " and the received type name |
| Validator.SampleBodyAccepted | tests/test_api.py:14-22 | the test suite's request passes, and still passes with a boolean certificate count |
| Validator.MissingFieldExample | app.py:75-76 | the test request without `certificacoes` fails as a missing `certificacoes` |
| Validator.WrongTypeExamples | app.py:77-79 | the sample request with `idade` sent as the string "trinta" or as `35.0` fails as an int-expected mismatch on `idade`, receiving "str" or "float" |
| Drift.Push | app.py:85 | after a push the window holds 1 to 100 entries and ends with the new value; below capacity it is a plain append; at capacity the oldest entry is dropped and the other 99 keep their order |
| Drift.FeedKeepsLast | app.py:85 | after any run of pushes the window is exactly the last 100 values fed, oldest first |
| Drift.ShortHistoryScore | app.py:85-87 | after at most 100 values the window is all of them, and the score is the distance of their mean from 0.62 |
| Drift.OldestEvicted | app.py:85 | after more than 100 values the window is the last 100 of them |
| Drift.OldestLeaveTheMean | app.py:85-87 | after more than 100 values the score depends only on the last 100 |
| Drift.Record | app.py:85-87 | the window is the old window after the push, non-empty and ending in the new value; the score, taken on it, is the non-negative distance between the window's mean and 0.62 |
| Drift.RecordLoop | app.py:85-87 | summing the window left to right gives the same window and score |
| Drift.DriftScore | app.py:87 | the score is non-negative and is the mean minus 0.62 or 0.62 minus the mean |
| Drift.Mean | app.py:86 | the mean times the number of entries is their sum |
| Drift.BaselineMeanNoDrift | app.py:86-87 | every window whose mean is the baseline 0.62 has score 0 |
| Drift.BaselineWindowHasNoDrift | app.py:86-87 | the window [0.6, 0.64], whose mean is 0.62, has score 0 |
| Drift.PushKeepsInUnit | app.py:81-85 | pushing a probability onto a window of probabilities keeps every entry in [0, 1] |
| Drift.DriftBounded | app.py:86-87 | a window of probabilities has its mean in [0, 1] and a score of at most 0.62 |
| Handler.Classify | app.py:82 | the class is 0 or 1, and it is 1 iff the probability is at least the 0.35 threshold |
| Handler.ClassifyMonotone | app.py:82 | a higher probability never yields a lower class |
| Handler.Handle | app.py:74-102 | a request is answered with a prediction iff all seven fields conform; a rejection leaves the window unchanged and carries the text of the first failing field; a prediction pushes p, reports class 1 iff p >= 0.35 and 0 iff p < 0.35, and sets the drift gauge to the score of the new window |
| Handler.HandleKeepsProbabilities | app.py:81-87 | when the model returns probabilities, the window keeps holding probabilities and every reported drift is at most 0.62 |
| Handler.WindowIsLastAccepted | app.py:74-102 | `ServeAll`: over any run of requests the window is the last 100 probabilities of the accepted requests: rejected requests leave no trace |
| Prospects.Flatten | train_model.py:34-41 | the number of rows is the total number of prospects over all jobs |
| Prospects.FlattenKeepsJobIds | train_model.py:37-38 | every row carries the id of one of the jobs |
| Prospects.FlattenIndex | train_model.py:34-41 | prospect k of job j is the row after all prospects of earlier jobs and the earlier prospects of job j |
| Prospects.FlattenLoop | train_model.py:34-41 | the nested loops build exactly the flattened table |
| Prospects.HireLabel | train_model.py:46-47 | the label is 0 or 1, and it is 1 iff "contratado" occurs in the lower-cased status |
| Prospects.HireLabelIgnoresCase | train_model.py:47 | lower-casing the status first does not change the label |
| Prospects.HireLabelExamples | train_model.py:47 | "Contratado pela Decision" and "CONTRATADO COMO HUNTING" are hires |
| Prospects.ProspectNotHired | train_model.py:47 | "Prospect" is not a hire |
| Prospects.Label | train_model.py:46-47 | each row keeps its job, candidate and status and gains a label that is 0 or 1, and is 1 iff "contratado" occurs in its lower-cased status |
| Text.Strip | train_model.py:92 | stripping never lengthens the text, and the result neither begins nor ends with whitespace |
| Text.StripSplits | train_model.py:92 | the text is whitespace, then the stripped text, then whitespace |
| Text.StripExact | train_model.py:92 | whitespace around a stripped text is exactly what strip removes |
| Text.StripIdempotent | train_model.py:92 | stripping twice is stripping once |
| Text.StripEmptyIffBlank | train_model.py:72-73 | strip yields the empty text iff the text is whitespace only, which is what the blank pattern matches |
| Text.Contains | train_model.py:47 | the substring test holds iff the pattern occurs at some position |
| Text.LowerIdempotent | train_model.py:47 | lower-casing twice is lower-casing once |
| Text.Lower | train_model.py:47 | lower-casing keeps the length, changes each character on its own, and leaves no upper-case ASCII letter |
| Text.LowerChar | train_model.py:47 | a character is changed iff it is an upper-case ASCII letter, which becomes the lower-case letter at the same place in the alphabet |
| Text.LowerTable | train_model.py:47 | the upper-case alphabet lower-cases to the lower-case alphabet, letter for letter |
| Text.LowerFixes | train_model.py:47 | lower-casing leaves a text unchanged iff it has no upper-case ASCII letter, so digits, spaces, accented and lower-case letters are kept |
| Text.StartsWithConcat | train_model.py:93-110 | `startswith`: any text put after a prefix starts with it |
| Text.StartsWithSplits | train_model.py:93-110 | `startswith`: a text that starts with a prefix is that prefix followed by the rest |
| Text.IsSpaceTable | train_model.py:72-73 | whitespace as `\s` and `strip` see it: the control separators, the no-break space and the ideographic space count; the zero-width space and the byte-order mark do not |
| Area.FirstCategory | train_model.py:93-112 | some category is found iff some prefix matches, and then it is the category of the first matching rule |
| Area.Categorize | train_model.py:89-112 | the result is one of the ten categories, and a missing area is "Outros" |
| Area.FirstCategoryOf | train_model.py:93-112 | for any ordered rule list, the category found is the one of the first matching rule |
| Area.FirstRuleWins | train_model.py:93-110 | when rule i is the first whose prefix the stripped text starts with, the category is rule i's, whatever later rules match |
| Area.StripIrrelevant | train_model.py:92 | the category depends only on the stripped text |
| Area.NoMatchIsOther | train_model.py:93-112 | an area is "Outros" iff its stripped text starts with none of the prefixes, since no rule selects "Outros" |
| Area.CategoryIsFixed | train_model.py:89-112 | each of the ten categories is its own category |
| Area.CategorizeIdempotent | train_model.py:89-112 | applying the function twice equals applying it once |
| Area.DevelopmentExample | train_model.py:93-94 | "TI - Desenvolvimento" is "TI" |
| Area.PaddedExample | train_model.py:92-94 | "TI - Desenvolvimento" padded with any whitespace is "TI" |
| Area.TechnicalRelationsExample | train_model.py:93-94 | "Relacionamento Técnico com Clientes" is "TI" |
| Area.NewBusinessExample | train_model.py:95-96 | "Novos Negócios" is "Comercial" |
| Area.UnmatchedExample | train_model.py:111-112 | "Engenharia" is "Outros" |
| Cleaning.FillBlank | train_model.py:72-74 | a missing or whitespace-only value becomes the default and every other value is unchanged |
| Cleaning.BlankIffStripsEmpty | train_model.py:72-86 | a value is blank (matches `^\s*$` or is missing) iff it is missing or strips to the empty text |
| Cleaning.FillBlankNormalises | train_model.py:72-86 | with a non-blank default no blank value remains, and filling again changes nothing |
| Cleaning.Filter | train_model.py:69-79 | a row is in the result iff it is in the table and passes the test; the result is no longer than the table |
| Cleaning.FilterAppend | train_model.py:79 | filtering keeps relative order: the filter of a concatenation is the concatenation of the filters |
| Cleaning.KeepBinaryLabels | train_model.py:69 | a row is kept iff it is in the table and its label is 0 or 1 |
| Cleaning.LabelFilterKeepsAll | train_model.py:69 | on rows labelled by the hire label the filter removes nothing |
| Cleaning.FillProfessional | train_model.py:72-74 | a blank professional level becomes "Desconhecido", other rows are unchanged, and no other column changes |
| Cleaning.DropBlankAcademic | train_model.py:77-79 | a row is kept iff it is in the table and its academic level is not blank |
| Cleaning.FillLanguages | train_model.py:82-86 | blank English and Spanish levels become "Nenhum", other values are unchanged, and no other column changes |
| Cleaning.TreatArea | train_model.py:115-117 | every area is replaced by the category `tratar_area` gives for it, which is one of the ten, and no other column changes |
| Cleaning.CleanRowsAreClean | train_model.py:69-117 | every row of the row-at-a-time reading is clean: label 0 or 1, no blank level, area a category |
| Cleaning.CleanRowIsClean | train_model.py:69-117 | a row that survives the filters comes out clean |
| Cleaning.CleanTableCons | train_model.py:69-117 | the stages treat the first row on its own: it yields its cleaned self if it survives and nothing otherwise |
| Cleaning.CleanTableIsRowwise | train_model.py:69-117 | `CleanTable`, the five stages in the script's order: the staged pipeline equals keeping the surviving rows in order and cleaning each one on its own |
| Cleaning.CleanTableIsClean | train_model.py:69-117 | every row of the cleaned table is clean |
| Cleaning.CleanTableAppend | train_model.py:69-117 | cleaning a concatenation is concatenating the cleaned parts |
| Cleaning.CleanIsFixed | train_model.py:69-117 | a table of clean rows is left as it is |
| Cleaning.CleanTableIdempotent | train_model.py:69-117 | cleaning a cleaned table changes nothing |

## Left out

- Flask routing, `request.get_json`, the `jsonify` responses and the HTTP 400 status (app.py:50-60, 94-102): the handler's outcome is the `Response` datatype.
- Prometheus metrics, the metrics server, logging and the server start (app.py:14-42, 88-93, 109-110): side effects with nothing to state.
- Loading the model and `predict_proba` (app.py:47, 81): foreign calls. The probability is a parameter of `Handler.Handle`, consulted only after validation passes.
- Exceptions raised by the model or by building the input frame: the handler would answer them with status 400 too. Only validation failures are modelled as rejections.
- Handler.Handle: reports the unrounded probability; `round(probabilidade, 4)` (app.py:95) is not modelled.
- Prospects.Label: when no job has a prospect the flattened frame has no columns and the script stops with a `KeyError` at train_model.py:46; the model gives an empty labelled table instead.
- Handler.Classify: compares with the exact real 0.35, not the double nearest it (0.34999999999999997…), so a probability equal to that double is class 1 in the handler and class 0 in the model.
- Drift.Record: uses exact reals for `sum`/`len` and `abs`, not IEEE doubles, so rounding error and NaN/infinity are not modelled.
- Concurrent requests sharing the window: the window is one sequential state threaded through `Handler.ServeAll`.
- Bodies that are not JSON objects (a list, a number, `null`): the body is a map from keys to values.
- Text.Lower: maps ASCII A–Z only; Python's full Unicode `str.lower()` (for example "Ç" to "ç") is not modelled.
- Text.IsSpace: the set written out is the one of Python's `str.isspace`, which `str.strip()` and the `\s` class of `re` both use; no other Unicode properties are modelled.
- Cleaning.IsBlank: only missing values and strings are modelled; a non-string value in a level column (a number, say) is not.
- Area.Categorize: a non-string, non-missing area would raise in `strip`; areas are strings or missing.
- Reading the JSON files, flattening the applicant records, and the left merge of prospects with applicants (train_model.py:19-28, 50-62): I/O and a pandas join. The merged table is the input of `Cleaning.CleanTable`.
- Undersampling, the train/test split, one-hot encoding, fitting the logistic regression and saving the model (train_model.py:119-162): randomness and library numerics.

