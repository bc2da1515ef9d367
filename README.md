# Startup issue sync for the papers dataset

A Dafny model of the startup hook `create_issues_from_csv` in `app/main.py`. The hook runs once when the service starts. It reads `papers.csv` and lists the repository's existing issues. Then it walks the rows in order. A row whose rendered title already belongs to an existing issue is skipped. Every other row gets one `post_github_issue` call, carrying the row's title, body and labels.

Modules:

- `Wrappers` (`wrappers.dfy`): `Option`.
- `Render` (`render.dfy`): the `Row` record, and `Title`, `Body`, `Labels` and `Request`. These render a row into the arguments of one post call.
- `Sync` (`sync.dfy`): the skip set (`SkipSet`) and the specification of a pass (`PostedRows`, `Plan`, `FailedRows`). It also holds the pass itself as an imperative method with a loop (`CreateIssuesFromCsv`) and the lemmas about the pass.

Inputs replace the I/O:

- The dataset load becomes `Option<seq<Row>>`. `None` means `pd.read_csv` raised.
- The issue listing becomes `seq<Option<string>>`. `None` is an entry without a `"title"` key.
- `raises: set<nat>` holds the row positions at which the post call raises.

A post is the `PostRequest` that the pass appends to its output. The response is ignored, as in the source, so nothing branches on it. A row that reaches the `except` branch is reported in the second output, `failed`.

One might expect a duplicate `paper_id` to count as handled once its first row is posted. The code does not do this. It builds the skip set once, before the loop, and never adds to it. So two rows that share a title absent from the listing are both posted (`Sync.DuplicateAbsentTitlesBothPosted`). The code also compares full titles, not `paper_id`s.

## Model

| member | source | states |
|---|---|---|
| `Render.Title` | app/main.py:76 | Reproduces the title f-string exactly: paper id, a space, coder, ` + `, supervisor. Its properties are the lemmas below. |
| `Render.Body` | app/main.py:81-86 | Reproduces the body template exactly: a leading newline, the paper, coder and supervisor lines, each ending in two spaces, then the case id line and a final newline. |
| `Render.Labels` | app/main.py:87 | Reproduces the label list exactly: paper id, coder id, supervisor id, in that order. |
| `Render.Request` | app/main.py:76-88 | The arguments of one `post_github_issue` call for a row: its title, body and labels. |
| `Render.TitleDeterminedByKeyFields` | app/main.py:76 | Rows that agree on paper id, coder and supervisor get the same title. No other field affects it. |
| `Render.TitleStartsWithPaperId` | app/main.py:76 | When the paper id has no space, it is exactly the title's first word, so the title can be decoded back to the paper id. |
| `Render.SameTitleSamePaperId` | app/main.py:76-77 | Two rows with space-free paper ids and equal titles have equal paper ids, so a title match never joins two different papers. |
| `Render.TitlesCanCollide` | app/main.py:76-77 | The converse fails: two rows with different coders can render the same title, so title-based skipping can skip a different assignment. |
| `Render.PaperIdsWithSpaceCanCollide` | app/main.py:76-77 | Without the space-free condition, two rows with different paper ids can render the same title, so title-based skipping can skip a different paper. |
| `Render.RequestLabelsAgreeWithTitle` | app/main.py:76-87 | Every request has exactly three labels: the paper id, which is a prefix of the title followed by a space, then the coder id, then the supervisor id. When the paper id has no space, the first label is the title's first word. |
| `Render.BodyInterpolatesEveryField` | app/main.py:81-86 | All seven fields of the row occur in the body. |
| `Sync.SkipSet` | app/main.py:72 | A string is in the skip set if and only if some listed issue has it as its title. Entries without a title contribute nothing. |
| `Sync.PostedRows` | app/main.py:74-79 | Lists, in strictly increasing order, exactly the positions of the rows whose title is not in the skip set. |
| `Sync.Plan` | app/main.py:74-88 | The specification of the loop: the post requests a pass emits against a fixed skip set, in row order. `CreateIssuesFromCsv` is proved equal to it, and the lemmas below characterise it. |
| `Sync.FailedRows` | app/main.py:88-90 | A row is reported as failed if and only if it was posted and its post call raised. |
| `Sync.CreateIssuesFromCsv` | app/main.py:54-90 | If the dataset fails to load, there are no posts and no failures. Otherwise the posts equal `Plan` over the rows, against the skip set built once from the listing. The failures equal `FailedRows`. A raising post therefore never changes which later rows are posted. |
| `Sync.PlanFollowsPostedRows` | app/main.py:74-88 | The k-th post request is the title, body and labels of the k-th posted row. |
| `Sync.PlanAvoidsSkipSet` | app/main.py:77-79 | No post request carries a title that is in the skip set. |
| `Sync.AbsentRowPostedOnce` | app/main.py:77-88 | A row whose title is not in the skip set is posted, at the position in `PostedRows` that holds its row position, with its own title, body and labels. `PostedRows` is strictly increasing, so that position is its only one. |
| `Sync.PlanInRowOrder` | app/main.py:74-88 | Of two posted rows, the earlier row's request is emitted first. |
| `Sync.DuplicateAbsentTitlesBothPosted` | app/main.py:72-88 | Two rows with the same title, absent from the skip set, are both posted. Posting does not update the skip set. |
| `Sync.NothingPostedIffAllExisting` | app/main.py:74-79 | A pass emits no request if and only if every row's title is already in the skip set. |
| `Sync.RerunPostsNothing` | app/main.py:72-88 | Re-run a pass against the listing extended by one titled issue per post of the first pass, and it emits no request. |

## Left out

- `generate_jwt` (app/main.py:13-22) is left out. It reads a key file and the clock, and signs with RS256 through an external library.
- `get_install_token` (app/main.py:25-34) is left out. It is an HTTP call.
- The HTTP request inside `post_github_issue` (app/main.py:37-50) is left out. A post is only the recorded request, and its response is never inspected.
- The issue listing request (app/main.py:66-71) is left out, and the listing is an input. The source asks for the default first page of open issues only. Closed issues and issues beyond the first page are therefore absent from the listing it builds. The model's idempotence result (`Sync.RerunPostsNothing`) holds relative to the listing it is given. The model does not cover an error object in place of a list either.
- Reading `papers.csv` with pandas (app/main.py:59-63) is left out. The dataset is an input, `None` when the read fails.
- pandas turns cells into text (missing values, floats printed as `1.0`). The model leaves this out: every field is an already-stringified value.
- The model has no missing column. A `KeyError` while rendering a row is therefore not modelled. The only failure inside the loop is a post call that raises, given by `raises`.
- The FastAPI application, the startup registration, the `root` route (app/main.py:93-95) and all `print` logging are left out. The error handler's report is modelled as the position of the failed row.
- A failure in token acquisition or in the listing request aborts the real hook before the loop. The model leaves this out.
