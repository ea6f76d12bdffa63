# Crash signatures, modelled in Dafny

This project models the crash-signature engine of FuzzManager
(`FTB/Signatures/CrashSignature.py`). A crash signature is a non-empty, ordered list of
symptoms plus three optional allow-lists (platforms, operating systems, products). The
engine

- builds a signature from JSON text, failing with `RuntimeError` when the text is not
  JSON, when the `symptoms` key is missing, or when its array is empty;
- decides whether a signature matches a crash: allow-lists first, then every symptom;
- tells whether matching needs the crash's testcase (some symptom is a testcase symptom);
- scores a crash against a signature with a `(distance, total)` pair, weighing a
  stack-frame symptom by its number of frames and assuming the worst case when a stack
  diff gives no distance;
- lists, symptom by symptom, which symptoms offend a crash and what the stack diff proposes;
- fits a new signature to a crash: matching symptoms pass through, offending stack-frame
  symptoms are replaced by their proposal or dropped, non-empty allow-lists are copied,
  and the result goes back through the constructor.

Files:

- `wrappers.dfy` (`Wrappers`): `Option` and `Result`.
- `symptoms.dfy` (`Symptoms`): the crash description, the closed `Symptom` type
  (`Testcase`, `StackFrames(functionNames, …)`, `Other`), the error type, and
  `SymptomOps`, which carries the per-symptom operations of `Symptom.py`
  (`fromJSONObject`, `matches`, `diff`) as function values. The operations assume nothing
  of them. Eight lemmas need a property of them and state it as a `requires`:
  - `FitSymptoms`, `FitIdempotent` and `DecodeJsonObjects`: symptoms re-parse to themselves;
  - `FitMatchesCrash`: symptoms re-parse to themselves and proposals match the crash;
  - `RefittedMatch`: proposals match the crash;
  - `MatchingCrashScoresZero`: stack diff distances are zero;
  - `DistanceAtMostTotal`: a diff distance is at most the frame count;
  - `NoDiffIsWorstCase`: no stack diff gives a distance and no other symptom matches.
- `crash_signature.dfy` (`CrashSignature`): the signature and every operation of the class.
- `distance_lemmas.dfy` (`DistanceLemmas`): properties of the distance score.
- `fit_lemmas.dfy` (`FitLemmas`): properties of fitting.

JSON text is handled by a `JsonCodec` parameter (`loads`, `dumps`). The decoded top-level
object is a `SignatureObject` with an `Option` per key (`None` for an absent key). `fit`
re-parses its output by constructing directly from the object it built. `Fit`'s contract
also states that this equals parsing the dumped text whenever `loads(dumps(obj)) == obj`.

Behaviour of the code worth knowing:

- `fit` raises `KeyError` on an offending symptom that is not a stack-frame symptom: its
  diff entry has no `proposed` key (line 170), and `fit` looks that key up (line 150).
  `Fit` returns `Failure(KeyError("proposed"))` in that case.
- A fitted signature keeps the non-empty allow-lists unchanged, so a crash outside them is
  still rejected by the signature fitted to it. `FitLemmas.FitMatchesCrash` states exactly
  when a fitted signature matches.
- An allow-list may be present but empty. Such a list rejects every crash in `matches`,
  and `fit` drops it (lines 137-144 test truthiness), so the fitted signature has no
  constraint there.
- The failures the constructor raises itself (lines 41, 47 and 52) are all `RuntimeError`;
  the model keeps their cause in a `Reason` field. A failure of `fromJSONObject` (line 50)
  is passed on as that operation reports it; `BadSymptom` is the `Reason` it can use.

## Model

| member | source | states |
|---|---|---|
| CrashSignature.DecodeSymptoms | FTB/Signatures/CrashSignature.py:49-50 | symptom entries decode in order; success iff every entry decodes, then the i-th symptom is the i-th entry's decoding; failure carries the error of the first entry that fails, all entries before it having decoded |
| CrashSignature.FromObject | FTB/Signatures/CrashSignature.py:43-57 | missing `symptoms` gives RuntimeError(MissingSymptoms); empty array gives RuntimeError(NoSymptoms); success iff the array is non-empty and every entry decodes; on success the signature has at least one symptom, its symptoms are the decoded entries in order, the allow-lists are the object's lists (absent stays absent), and the raw text is kept |
| CrashSignature.Parse | FTB/Signatures/CrashSignature.py:22-57 | text that is not JSON fails with RuntimeError(InvalidJson); a constructed signature is valid, its string form `CrashSignature.ToString` (the model of `__str__`, lines 64-65) is exactly the input text, and its allow-lists are the decoded ones |
| CrashSignature.AllMatch | FTB/Signatures/CrashSignature.py:86-90 | the first-failure loop over the symptoms is true iff every symptom matches the crash |
| CrashSignature.Matches | FTB/Signatures/CrashSignature.py:67-90 | true iff each present allow-list contains the crash's platform / OS / product and every symptom matches; a present list without the crash's value rejects whatever the symptoms say, and an absent list imposes nothing |
| CrashSignature.HasTestcase | FTB/Signatures/CrashSignature.py:102-106 | the scan returns true iff some symptom is a testcase symptom |
| CrashSignature.MatchRequiresTest | FTB/Signatures/CrashSignature.py:92-106 | true iff some symptom of the signature is a testcase symptom |
| CrashSignature.GetDistance | FTB/Signatures/CrashSignature.py:108-129 | the loop's distance is the sum of per-symptom costs: diff distance or frame count for stack symptoms, 1 for a non-matching other symptom; total is the symptom count plus the sum of (frames - 1) over stack symptoms |
| CrashSignature.SymptomsDiff | FTB/Signatures/CrashSignature.py:157-171 | one entry per symptom, in order, carrying that symptom; offending iff the symptom does not match; a `proposed` field exactly on offending stack-frame entries, holding the diff's proposal |
| CrashSignature.FitEntries | FTB/Signatures/CrashSignature.py:148-153 | fails iff some entry is offending without a `proposed` key, and then with KeyError("proposed"); otherwise writes at most one object per entry |
| CrashSignature.CopyIfNonEmpty | FTB/Signatures/CrashSignature.py:137-144 | an allow-list is carried over iff it is present and non-empty, and then unchanged |
| CrashSignature.FitObject | FTB/Signatures/CrashSignature.py:131-153 | fails iff some non-stack symptom does not match (KeyError("proposed")); otherwise holds a symptoms array no longer than the signature's, and the allow-lists copied only when non-empty |
| CrashSignature.Fit | FTB/Signatures/CrashSignature.py:131-155 | an unrepairable symptom makes fit fail with KeyError; an empty fitted symptom list fails with RuntimeError(NoSymptoms); a fitted signature is valid, no longer than the original, has the dumped object as its text and the non-empty allow-lists; fit equals parsing the dumped text whenever loads inverts dumps |
| DistanceLemmas.TotalIsWeightSum | FTB/Signatures/CrashSignature.py:109-124 | the total equals the sum of weights, where a stack-frame symptom weighs its frame count and any other symptom weighs 1 |
| DistanceLemmas.TotalWithoutStacks | FTB/Signatures/CrashSignature.py:108-129 | without stack-frame symptoms the total is the symptom count |
| DistanceLemmas.CostSumAppend | FTB/Signatures/CrashSignature.py:110-127 | the distance of a concatenation of symptom lists is the sum of their distances |
| DistanceLemmas.DistanceZeroIff | FTB/Signatures/CrashSignature.py:112-127 | distance is 0 iff every non-stack symptom matches and every stack symptom has diff distance 0, or has no diff distance and no frames |
| DistanceLemmas.MatchingCrashScoresZero | FTB/Signatures/CrashSignature.py:108-129 | a crash the signature matches scores distance 0 when its stack diffs report 0 |
| DistanceLemmas.DistanceAtMostTotal | FTB/Signatures/CrashSignature.py:108-129 | when diff distances stay within the frame counts, distance is at most total, with equality iff every symptom contributes its full weight |
| DistanceLemmas.NoDiffIsWorstCase | FTB/Signatures/CrashSignature.py:114-119 | when no stack diff gives a distance and no other symptom matches, the worst-case fallback makes distance equal total |
| FitLemmas.JsonObjects | FTB/Signatures/CrashSignature.py:151-153 | the objects written for a symptom list are their `jsonobj`s, one per symptom, in order |
| FitLemmas.RefittedAppend | FTB/Signatures/CrashSignature.py:148-153 | fitting is per symptom: the fit of a concatenation is the concatenation of the fits, so kept symptoms stay in their original order |
| FitLemmas.RefittedLength | FTB/Signatures/CrashSignature.py:148-153 | fitting never adds symptoms |
| FitLemmas.RefittedAllMatching | FTB/Signatures/CrashSignature.py:152-153 | when every symptom matches, the fitted symptom list is the original list |
| FitLemmas.RefittedMatch | FTB/Signatures/CrashSignature.py:148-153 | if every proposal matches the crash, every fitted symptom matches it |
| FitLemmas.FitEntriesAreRefitted | FTB/Signatures/CrashSignature.py:146-153 | with no unrepairable symptom, the written entries are the `jsonobj`s of the kept symptoms and proposals, in order, with offending stacks without proposal dropped |
| FitLemmas.DecodeJsonObjects | FTB/Signatures/CrashSignature.py:49-50 | re-decoding the written objects of self-reparsing symptoms gives the same symptoms |
| FitLemmas.FitSymptoms | FTB/Signatures/CrashSignature.py:146-155 | fit succeeds iff the fitted list is non-empty and then has exactly that list; a fit that drops every symptom fails with RuntimeError(NoSymptoms) |
| FitLemmas.FitIdempotent | FTB/Signatures/CrashSignature.py:131-155 | fitting a signature to a crash it matches succeeds and returns the same symptoms and the same allow-lists |
| FitLemmas.FitMatchesCrash | FTB/Signatures/CrashSignature.py:137-155 | when proposals match the crash, a fitted signature matches it iff the carried (non-empty) allow-lists admit the crash |

## Left out

- `CrashSignature.fromFile` (lines 59-62): file I/O.
- Character-level JSON: `json.loads` and `json.dumps` are the `loads` and `dumps` fields of
  `JsonCodec`. A top-level value that is JSON but not an object is folded into `loads`, so
  the model fails with `RuntimeError(InvalidJson)` where the code differs: `null`, a number
  or a boolean makes `"symptoms" in obj` (line 44) raise `TypeError`; a string gets a
  substring test, and an array a membership test, so both usually fail with the
  missing-key `RuntimeError` of line 52. The exception message text is not modelled;
  only its cause is.
- JSON numbers are integers in the `Json` payload type; floats are not represented. The
  payload is only handed to the abstract `fromJSONObject`, which never inspects it here.
- `JSONHelper.getArrayChecked`: its type checks (a key whose value is not an array) are
  not modelled. The decoded object is typed, with lists of symptom objects and of strings.
- `Symptom.fromJSONObject`, `Symptom.matches` and `StackFramesSymptom.diff`, including the
  stack alignment algorithm: FTB/Signatures/Symptom.py is not part of this model. They are
  the function fields of `SymptomOps`, and no behaviour is assumed of them.
- FitLemmas.FitSymptoms: requires every fitted symptom to re-parse from its own `jsonobj`
  to itself, which the source takes for granted of `Symptom.fromJSONObject`.
- FitLemmas.FitIdempotent: requires the same re-parse property of the signature's
  symptoms, and a non-empty symptom list (as every constructed signature has).
- FitLemmas.FitMatchesCrash: requires the re-parse property and that every proposal of the
  stack diff matches the crash; neither can be shown without Symptom.py.
- DistanceLemmas.MatchingCrashScoresZero: requires the stack diffs of a matching crash to
  report distance 0, for the same reason.
- `server/ec2spotmanager/views.py`: web request handlers, database access, a PID-file
  liveness probe and EC2 price lookups, none of which belongs to the signature engine.
