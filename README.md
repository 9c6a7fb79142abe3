# teatexts pipeline — a Dafny model

TeaTexts runs a text-message A/B experiment on students who signed up through a
Google Form. Four Python scripts carry the data from stage to stage:

1. `01_process_raw.py` cleans the survey. It renames and drops columns, and reduces
   each phone field to its digits. It strips a leading country code `1`, removes rows
   with no digits left, and casts the phone to an integer id. Then it keeps only the
   first row for each id.
2. `02_assign_shortlinks.py` asks the Rebrandly service for a fresh shortlink per
   subject, all for the same campaign URL. It draws a 0/1 treatment per subject and
   adds the experiment label. The result keeps exactly the columns Phone, Shortlink,
   Treatment and Experiment.
3. `03_send_texts.py` sends each control subject (Treatment 0) an SMS and each treatment
   subject (Treatment 1) an MMS with the event image. The body is the message, then
   `http://`, then the shortlink, then a full stop. The script records a 0/1 success
   column. It also sends a welcome SMS to `"+1"` followed by every subject's id.
4. `05_get_counts.py` pages through Rebrandly's link list, passing the id of the last
   link seen as the `last` cursor. It makes `ceil(n_links / request_limit)` requests
   and collects id, slashtag, shortUrl and clicks.

The Dafny modules follow these stages:

- `Decimal` covers digit characters, the integer cast of a digit string and the
  decimal rendering of an integer, with their round trips.
- `Masks` covers pandas boolean-mask selection (`Where`, `Filter`) and subsequences.
- `Frames` models a pandas DataFrame as the class `Table`. A table has ordered column
  labels and one column of cells per label. `SetColumn` models `df[name] = ...`, which
  changes the frame in place. `Select` models `df[[...]]`, which builds a new frame.
- `ProcessRaw` covers stage 1.
- `AssignShortlinks` covers stage 2.
- `SendTexts` covers stage 3.
- `GetCounts` covers stage 5.

Outside services are parameters of the model:

- The create-link reply is a function of the call number and the payload.
- The binomial draws are a function from the row number to a boolean.
- Twilio is a function from the item number and the message to whether
  `client.messages.create` returned or raised.
- The list endpoint is a function from the request number and the query to the page
  it answers.

Under these parameters, every script step is deterministic. The methods append each
call to a list as they make it (`requests`, `sends`, `queries`), so the contracts can
state what was asked of each service as well as what came back.

## Model

| member | source | states |
|---|---|---|
| ProcessRaw.DropTimeAndConsent | 01_process_raw.py:15-18 | one row per submission, same order; the Phone field and the five remaining survey fields are those of the submission |
| ProcessRaw.StripNonDigits | 01_process_raw.py:21 | the field without its non-digits is all digits and a subsequence of the field |
| ProcessRaw.StripNonDigitsKeepsDigits | 01_process_raw.py:21 | removing every non-digit run leaves only digits, a subsequence of the field, and exactly the field's digits with their multiplicities |
| ProcessRaw.StripNonDigitsIdempotent | 01_process_raw.py:21 | cleaning the digits twice changes nothing |
| ProcessRaw.StripNonDigitsConcat | 01_process_raw.py:21 | the digit filter distributes over concatenation |
| ProcessRaw.StripNonDigitsOfDigits | 01_process_raw.py:21 | a field that is all digits is kept unchanged |
| ProcessRaw.StripNonDigitsOfText | 01_process_raw.py:26 | a field without digits, such as 'anise', becomes empty |
| ProcessRaw.StripLeadingOne | 01_process_raw.py:23-24 | the anchored `^1` removes exactly one leading '1' and changes the string if and only if it starts with '1' |
| ProcessRaw.StripLeadingOneNotIdempotent | 01_process_raw.py:24 | the replacement removes one '1' per call: some string loses another '1' when it is applied twice |
| ProcessRaw.RemoveCaretOne | 01_process_raw.py:24 | the literal (non-regex) replacement of "^1" leaves every string without a '^' unchanged |
| ProcessRaw.CleanPhone | 01_process_raw.py:21-24 | the cleaned phone field is all digits |
| ProcessRaw.CleanPhoneAsWritten | 01_process_raw.py:21-24 | with the literal replacement the cleaned field is just the digits of the input: no country code is removed |
| ProcessRaw.CleanDigitsColumn | 01_process_raw.py:21 | the Phone column's replacement keeps every row and its survey fields, and leaves in each Phone only digits, a subsequence of what was there |
| ProcessRaw.StripCountryCodeColumn | 01_process_raw.py:24 | every row keeps its survey fields; its Phone loses one leading '1' if it starts with one and is unchanged otherwise |
| ProcessRaw.DropEmptyPhones | 01_process_raw.py:27 | the `Phone != ''` mask keeps the rows in order, every row with a Phone as often as it occurs, and no row with an empty Phone |
| ProcessRaw.ToIds | 01_process_raw.py:30 | the int64 cast keeps every row and its survey fields and turns each Phone into the integer its digits spell |
| ProcessRaw.FirstSeen | 01_process_raw.py:38 | the duplicate mask has one flag per row |
| ProcessRaw.FirstSeenMeansFirst | 01_process_raw.py:38 | a row's flag is set if and only if no earlier row has the same Phone (`~duplicated`, keep first) |
| ProcessRaw.Cleaned | 01_process_raw.py:30 | an eligible submission's subject keeps its survey fields and takes the integer value of its cleaned phone as id |
| ProcessRaw.Candidates | 01_process_raw.py:27-30 | the row-by-row reference for the rows before deduplication has no more rows than there are submissions |
| ProcessRaw.CandidatesFromEligible | 01_process_raw.py:27-30 | every row left after the empty-phone filter and the cast comes from a submission whose cleaned phone is non-empty |
| ProcessRaw.EligibleInCandidates | 01_process_raw.py:27-30 | every submission whose cleaned phone is non-empty yields a row |
| ProcessRaw.KeptRowsHaveIds | 01_process_raw.py:27-30 | after the `Phone != ''` mask every Phone is a non-empty digit string, so the int64 cast applies to every row |
| ProcessRaw.MaskStepsMatchCandidates | 01_process_raw.py:21-30 | the column-wise mask filter followed by the cast gives the same rows as the row-by-row reference |
| ProcessRaw.MaskStepSnoc | 01_process_raw.py:27-30 | one more submission extends the masked and cast rows exactly as it extends the reference rows |
| ProcessRaw.DropDuplicates | 01_process_raw.py:38 | `~duplicated('Phone')` keeps a subsequence of the rows |
| ProcessRaw.DropDuplicatesSnoc | 01_process_raw.py:38 | appending a row adds it to the deduplicated rows exactly when its Phone has not been seen |
| ProcessRaw.DropDuplicatesKeepsPhones | 01_process_raw.py:38 | deduplication loses no id |
| ProcessRaw.DropDuplicatesUnique | 01_process_raw.py:38 | after deduplication no two rows share a Phone |
| ProcessRaw.DropDuplicatesKeepsFirst | 01_process_raw.py:38 | a row is kept if and only if it is the first row with its Phone |
| ProcessRaw.DropDuplicatesOfUnique | 01_process_raw.py:38 | rows that are already unique are kept as they are |
| ProcessRaw.DropDuplicatesIdempotent | 01_process_raw.py:38 | deduplicating twice is deduplicating once |
| ProcessRaw.ProcessResponses | 01_process_raw.py:15-38 | the script's steps give the deduplicated reference rows: unique ids, in survey order, each from an eligible submission, and every eligible submission's id present |
| ProcessRaw.StripDigitGroups | 01_process_raw.py:21 | a number typed as three digit groups between separators without digits strips to the three groups run together |
| ProcessRaw.StripFormatsExample | 01_process_raw.py:21 | "(415) 555-1234" and "415-555-1234" both become "4155551234" |
| ProcessRaw.StripCountryCodeExample | 01_process_raw.py:21 | "1 (415) 555-1234" becomes "14155551234" before the country code step |
| ProcessRaw.SurveyExamples | 01_process_raw.py:20-27 | formatted and prefixed numbers clean to the same ten digits; 'anise' and a lone "1" clean to the empty string and are dropped |
| ProcessRaw.LiteralPatternSplitsSubject | 01_process_raw.py:24 | with the literal replacement, "1 (415) 555-1234" and "415-555-1234" get different ids; with the anchored one they get the same id |
| Decimal.DigitValue | 01_process_raw.py:30 | a digit's value is below ten |
| Decimal.DigitChar | 03_send_texts.py:78 | the character rendered for a digit value is a digit with that value |
| Decimal.ParseDecimal | 01_process_raw.py:30 | the integer of a k-digit string is below 10^k |
| Decimal.DecimalString | 03_send_texts.py:78 | `astype(str)` of an id is a canonical digit string (no leading zero) |
| Decimal.IntString | 03_send_texts.py:78 | a non-negative integer renders canonically; a negative one as '-' followed by a canonical string |
| Decimal.ParseDecimalString | 03_send_texts.py:78 | reading back the rendering of an id gives the id |
| Decimal.LeadingNonZeroPositive | 01_process_raw.py:30 | a digit string starting with a non-zero digit casts to a positive integer |
| Decimal.DecimalStringParse | 01_process_raw.py:30 | a canonical digit string survives the cast and the rendering unchanged |
| Decimal.LeadingZeroLost | 01_process_raw.py:30 | a leading zero does not change the cast, so it does not survive a round trip |
| Masks.Where | 01_process_raw.py:27 | boolean-mask selection keeps at most the rows it is given |
| Masks.Mask | 01_process_raw.py:27 | the mask has one flag per row, the predicate's value on that row |
| Masks.WhereSubsequence | 01_process_raw.py:38 | masked selection keeps rows in their original order |
| Masks.WhereMembers | 01_process_raw.py:38 | a value is selected if and only if some row holding it has its flag set |
| Masks.FilterSnoc | 01_process_raw.py:27 | filtering one more row appends it exactly when it satisfies the predicate |
| Masks.FilterCounts | 01_process_raw.py:27 | filtering keeps every occurrence of a satisfying value and none of any other |
| Masks.FilterSatisfies | 01_process_raw.py:27 | every kept row satisfies the predicate and is an input row |
| Masks.FilterAllSatisfy | 01_process_raw.py:27 | when every row satisfies the predicate nothing is dropped |
| Masks.FilterNoneSatisfy | 01_process_raw.py:27 | when no row satisfies the predicate nothing is kept |
| Masks.FilterConcat | 01_process_raw.py:27 | filtering distributes over concatenation |
| Masks.FilterIdempotent | 01_process_raw.py:27 | filtering twice is filtering once |
| Frames.WithColumn | 02_assign_shortlinks.py:67-69 | after assigning a column its label is present; an existing label keeps its position, a new one is appended, no other label changes |
| Frames.Table.constructor | 02_assign_shortlinks.py:70 | a new frame holds exactly the given labels, cells and height |
| Frames.Table.SetColumn | 02_assign_shortlinks.py:67 | `df[name] = values` replaces or appends that column in place and leaves every other column and the height as they were |
| Frames.Table.Select | 02_assign_shortlinks.py:70 | `df[[...]]` is a new frame with exactly those columns in that order, the same cells and the same rows |
| AssignShortlinks.LinkRequestFor | 02_assign_shortlinks.py:22-32 | the create-link payload has the given URL as destination and go.teatexts.me as domain |
| AssignShortlinks.ShortlinkOf | 02_assign_shortlinks.py:46-50 | a reply with status 200 yields its shortUrl; any other status yields "Error" |
| AssignShortlinks.SentinelIsAmbiguous | 02_assign_shortlinks.py:46-50 | a successful reply whose shortUrl is "Error" is indistinguishable from a failed call |
| AssignShortlinks.GenerateShortlink | 02_assign_shortlinks.py:11-50 | the call posts the payload for the given URL on go.teatexts.me, and the link returned is what that payload's reply yields: its shortUrl on status 200, "Error" otherwise |
| AssignShortlinks.ShortlinkColumn | 02_assign_shortlinks.py:67 | one link per row, row k holding what the reply to the k-th create call for the URL yields |
| AssignShortlinks.TreatmentColumn | 02_assign_shortlinks.py:68 | one 0/1 entry per row, 1 exactly where the row's Bernoulli draw succeeded |
| AssignShortlinks.ExperimentColumn | 02_assign_shortlinks.py:69 | the label is broadcast to every row |
| AssignShortlinks.AssignShortlinks | 02_assign_shortlinks.py:52-72 | one create call per row, in row order, each posting the URL on go.teatexts.me, and row k of Shortlink is what the k-th reply yields; the caller's frame gains the three columns in place, even when the missing Phone column then makes line 70 fail (null result); otherwise the result has exactly Phone, Shortlink, Treatment, Experiment, the same rows and the input's Phone column |
| SendTexts.SendSms | 03_send_texts.py:14-25 | the result is 0 or 1, and it is 1 if and only if the SMS create call returned |
| SendTexts.SendMms | 03_send_texts.py:27-39 | the result is 0 or 1, and it is 1 if and only if the MMS create call, with the media URL, returned |
| SendTexts.Compose | 03_send_texts.py:58 | the body is the message, then "http://", then the shortlink, then a full stop |
| SendTexts.LinkInCompose | 03_send_texts.py:58 | the shortlink can be read back from the body, so distinct links give distinct texts |
| SendTexts.Dispatch | 03_send_texts.py:57-64 | a row calls for a send if and only if its Treatment is 0 or 1: an SMS for 0 and an MMS with the image for 1, both to the row's Phone |
| SendTexts.RowSuccess | 03_send_texts.py:57-64 | a row's entry is 0 or 1, and 1 exactly when it calls for a send and that send went through |
| SendTexts.RowAttempt | 03_send_texts.py:57-64 | a row makes at most one create call, for itself, and makes one exactly when its Treatment is 0 or 1 |
| SendTexts.SuccessColumn | 03_send_texts.py:54-64 | the Success column has one entry per row |
| SendTexts.Attempts | 03_send_texts.py:56-64 | there are at most as many create calls as rows |
| SendTexts.SuccessEntries | 03_send_texts.py:54-66 | every Success entry is 0 or 1, and it is 1 exactly when the row calls for a send and Twilio accepted it |
| SendTexts.AttemptsAsDispatched | 03_send_texts.py:56-64 | every create call is the message its row calls for |
| SendTexts.AttemptsInRowOrder | 03_send_texts.py:56 | the create calls are made in row order, at most one per row |
| SendTexts.AttemptsCoverArms | 03_send_texts.py:57-64 | a row gets a create call if and only if its Treatment is 0 or 1 |
| SendTexts.FailureIsolated | 03_send_texts.py:16-25 | a failed send affects only its own row's entry |
| SendTexts.SuccessesAtMostAttempts | 03_send_texts.py:54-64 | there are no more successes than create calls |
| SendTexts.SendRow | 03_send_texts.py:57-64 | one row's entry is 0 or 1, and 1 exactly when the row calls for a send and Twilio accepts it; the create call made is the one the row calls for, or none |
| SendTexts.SendRows | 03_send_texts.py:54-64 | the loop builds the Success column of the rows and makes the row-order create calls |
| SendTexts.ReadColumnsSendable | 03_send_texts.py:56-62 | when no read of the loop raises, every row of an arm has a string Shortlink to compose with |
| SendTexts.SendMessages | 03_send_texts.py:41-68 | on every frame whose rows can be read (Treatment present unless the frame is empty; Phone and a string Shortlink wherever Treatment is 0 or 1), the caller's frame gains the Success column in place, as the success indicators of its rows; the calls made are the row-order dispatches; the same frame is returned |
| SendTexts.Recipient | 03_send_texts.py:78 | every welcome recipient starts with "+1" |
| SendTexts.RecipientRoundTrip | 03_send_texts.py:78 | after "+1" the recipient is the id's canonical decimal digits, which read back as the id |
| SendTexts.SendWelcome | 03_send_texts.py:82-85 | one SMS of the welcome text per subject, in order, to "+1" and the id; each entry is 0 or 1, and 1 exactly when that send went through |
| GetCounts.ListQuery | 05_get_counts.py:47-52 | every list query asks for createdAt, desc and limit "5000", with the given cursor |
| GetCounts.CeilDiv | 05_get_counts.py:44 | `ceil(n / r)`: the least multiple of r at or above n, for either sign of r |
| GetCounts.IterationCount | 05_get_counts.py:44 | `np.arange(ceil(n / r))` runs ceil(n / r) times when that is positive and never otherwise |
| GetCounts.IterationCountBounds | 05_get_counts.py:44 | with a positive page size there is no request when no links are expected, and otherwise just enough pages for n links |
| GetCounts.IterationCountExamples | 05_get_counts.py:26-27 | 2404 links at 25 per page take 97 requests |
| GetCounts.Fetch | 05_get_counts.py:44-67 | a fault happens in an earlier request; while fetching, the cursor is the id of the last link collected, or empty before any request |
| GetCounts.FetchStep | 05_get_counts.py:55-67 | one more pass appends the page and moves the cursor to its last id, or faults on an empty page |
| GetCounts.FaultIsFinal | 05_get_counts.py:67 | a fault ends the run: every later state is the same fault |
| GetCounts.FetchingBefore | 05_get_counts.py:60-67 | a run still fetching had a non-empty page in every earlier request, and the links collected only grow |
| GetCounts.FaultedOnEmptyPage | 05_get_counts.py:67 | a run faults in request j exactly when page j came back empty |
| GetCounts.CursorIsLastOfPreviousPage | 05_get_counts.py:67 | each request's cursor is the id of the last link of the previous page |
| GetCounts.Ids | 05_get_counts.py:61 | the id list holds the id of every link, in order |
| GetCounts.Slashtags | 05_get_counts.py:62 | the slashtag list holds the slashtag of every link, in order |
| GetCounts.ShortUrls | 05_get_counts.py:63 | the shortUrl list holds the shortUrl of every link, in order |
| GetCounts.Clicks | 05_get_counts.py:64 | the clicks list holds the click count of every link, in order |
| GetCounts.Assemble | 05_get_counts.py:70-75 | the frame built from the four lists has one row per entry |
| GetCounts.AssembleSplit | 05_get_counts.py:60-75 | splitting the links into four lists and building the frame gives back the links |
| GetCounts.SplitAssemble | 05_get_counts.py:70-75 | building the frame from four equal-length lists and splitting it again gives back the lists |
| GetCounts.AppendPage | 05_get_counts.py:60-64 | each list is extended by the matching field of every item of the page, in order |
| GetCounts.Requests | 05_get_counts.py:44-55 | no more requests than passes |
| GetCounts.RequestsAt | 05_get_counts.py:47-55 | request k carries the cursor of state k; the first has an empty cursor |
| GetCounts.RequestsCount | 05_get_counts.py:44-67 | a run that does not fault makes exactly one request per pass; a faulted run makes one more than the faulting request's index |
| GetCounts.NoRequestsAfterFault | 05_get_counts.py:67 | no request is made after a fault |
| GetCounts.FetchingThroughout | 05_get_counts.py:55-67 | a run still fetching after k passes had a non-empty page in every one of its requests |
| GetCounts.Harvest | 05_get_counts.py:44-75 | the run completes only when every request had a non-empty page, and then with some links if it made any request; it faults only in a request it made whose page was empty |
| GetCounts.GetCounts | 05_get_counts.py:25-75 | the script's loop ends with the links of the reference run, or faults in the same request; its requests are the reference requests |
| GetCounts.Gather | 05_get_counts.py:44-67 | the corrected loop stops only after a request; while it goes on, its cursor is the id of the last link collected, or empty before any request |
| GetCounts.GatherAgrees | 05_get_counts.py:21-23 | pagination that stops at an empty page agrees with the script while no page is empty, and keeps what was collected where the script faults |
| GetCounts.OnePageFaults | 05_get_counts.py:67 | with 50 expected links, a service holding only one page makes the script fault in the second request, while the corrected loop keeps that page |
| GetCounts.CollectUntilEmpty | 05_get_counts.py:44-67 | the corrected loop returns the links of the stop-at-empty-page reference and makes the same requests as the script |

## Left out

- Reading and writing CSV files is not modelled. Each stage starts from and ends with
  in-memory rows.
- `print`, `head()`, the duplicate listing on line 35 of `01_process_raw.py` and the
  `np.mean` on line 88 of `03_send_texts.py` are not modelled. They only display values.
- API keys, Twilio credentials, HTTP headers, endpoint URLs and JSON encoding and
  decoding are not modelled. A reply is reduced to the fields the scripts read.
- The treatment probability `p` of `assign_shortlinks` is not modelled. The draws are
  an input, so no statistical property of the assignment is stated.
- Pandas NaN cells are not modelled, and neither are the index labels that survive
  filtering or column dtypes after a CSV round trip. A cell is an integer or a string.
- Decimal.ParseDecimal: the int64 cast is unbounded here. Overflow past 2^63 - 1 is
  not modelled.
- ProcessRaw.StripNonDigits: Python's `\d` also matches non-ASCII decimal digits. The
  model treats only '0' to '9' as digits.
- GetCounts.CeilDiv: `np.ceil` of a float quotient is modelled as exact integer ceiling
  division. Float rounding for very large counts is not modelled.
- AssignShortlinks.AssignShortlinks and GetCounts.GetCounts: exceptions raised by the
  service calls are not modelled. `requests.post` (line 41 of `02_assign_shortlinks.py`),
  `r.json()` and `link["shortUrl"]` (lines 47-48), and `requests.request` and
  `response.json()` (lines 55-56 of `05_get_counts.py`) can raise. Such an exception
  aborts the whole stage: stage 2 before any column is assigned, stage 5 before
  anything is written. Only a reply that arrives with a status other than 200 becomes
  "Error". The model's create-link service and list endpoint always answer.
- AssignShortlinks.AssignShortlinks: a frame without a Phone column gives a null
  result. The script raises KeyError at line 70, after lines 67-69 have already added
  the three columns to the caller's frame; the model keeps that side effect.
- SendTexts.SendMessages requires that no read of its loop raises. Treatment must be
  present unless the frame is empty. Phone must be present, and the Shortlink cell
  must be a string, in every row whose Treatment is 0 or 1. Any other frame is
  accepted, including one without Phone or Shortlink and no row of an arm. When a read
  does raise (KeyError, or TypeError when building the body), the script stops after
  sending the earlier rows and adds no Success column; that path is not modelled.
- GetCounts.GetCounts and GetCounts.CollectUntilEmpty require a non-zero
  `request_limit`. The script divides by it.
- SendTexts.SendMessages passes the row's Phone cell as `to` unchanged, as the script
  does, without the "+1" the welcome loop adds. Whether Twilio accepts that number is
  part of the Twilio input.
- The second example-usage block of `03_send_texts.py` (lines 90-107) and that of
  `02_assign_shortlinks.py` (lines 74-82) are not modelled separately. They are single
  calls of the modelled functions with constants, around file I/O.
- GetCounts.GetCounts does not state that the collected links are free of duplicates.
  That depends on how the service orders pages under the cursor, which the model
  leaves to the input.
- The author's comment on lines 21-23 of `05_get_counts.py` says an exactly even number
  of pages may raise an error. The code raises whenever any page comes back empty.
  The model follows the code.

## Findings

| source | as written | input that shows it | evidently intended | confidence | as-written member | corrected member |
|---|---|---|---|---|---|---|
| 01_process_raw.py:24 | `str.replace('^1', '')` without `regex=True` replaces the literal two characters "^1" under pandas 2.0 and later, so no country code is removed | "1 (415) 555-1234" cleans to 14155551234 while "415-555-1234" cleans to 4155551234: one person, two ids | remove one leading '1' (the anchored regex, the default before pandas 2.0) | not executed; depends on the pandas version | ProcessRaw.LiteralPatternSplitsSubject | ProcessRaw.CleanPhone |
| 05_get_counts.py:67 | `last = json[-1]['id']` indexes the page without checking that it is non-empty, so an empty page raises IndexError and nothing is written | n_links = 50, request_limit = 25, and a service holding one page of links: the second request returns [] and the run faults | stop paginating at the first empty page and keep the links collected | not executed | GetCounts.OnePageFaults | GetCounts.CollectUntilEmpty |
