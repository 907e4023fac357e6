# Text generation gateway views, modelled in Dafny

This project models the logic of `mistral/views.py` in the Django gateway of
auth_register_django. The gateway:

- logs a user in and issues a JWT;
- guards its endpoints with a `token_required` decorator;
- forwards a prompt to a local Mistral language-model server and normalises
  the streamed answer with `transform_text`.

Modules:

- `Http` (`http.dfy`) holds the shared vocabulary: parsed JSON values with
  Python truthiness, the request body, the responses a view can give, and the
  request, a class whose `user_id` the token gate assigns.
- `Transform` (`transform.dfy`) holds `transform_text` and `str.strip()`:
  - the two `replace` calls;
  - the `re.sub(r'([A-Za-z]+)\s([A-Za-z]+)', r'\1\2', …)` step, written as the
    left-to-right, non-overlapping scan `re.sub` performs;
  - `\s` and `strip()`, which share one whitespace predicate: Python's
    `str.isspace()` class, given as code-point ranges.
- `Auth` (`auth.dfy`) holds:
  - `str.split(' ')`;
  - the token gate, as a decision function `Gate` plus a method
    `TokenRequired` that sets `request.user_id`;
  - `Login.post`, over an abstract user table, password check and encoder.
- `Generation` (`generation.dfy`) holds:
  - `generate_text`, as the method `GenerateText`, whose `while` loop
    reassembles the stream;
  - the specification function `GenerateSpec` that the method is proved
    against;
  - the decorated endpoint (gate, then view).
- `Similarity` (`similarity.dfy`) holds the 0.8 threshold of
  `analyze_context`.

The model follows the code in a few places where it is easy to misread:

- A backslash is deleted, not turned into a space. `"He llo\nWor\\ld"`
  therefore becomes `"He llo World"` before the merge, and `"Hello World"`
  after it. Only `He`/`llo` is a match.
- Each streamed fragment is followed by a space, including the last one.
  `strip()` removes the trailing space.
- Matches never overlap. Three one-space-separated words keep their second
  space: `"a b c"` gives `"ab c"`.
- The decorators run the token gate before the method check. A GET without a
  token is answered 403, not 405.
- A token whose payload lacks `id` raises a `KeyError` that neither `except`
  clause catches. It escapes the view (`Unhandled`).
- `split(' ')[1]` after `Bearer ` cannot fail: such a header always has two
  fields (`BearerSplit`).

## Model

| member | source | states |
|---|---|---|
| `Transform.IsSpace` | mistral/views.py:108 | no contract of its own: the whitespace class shared by `\s` and `strip()`, Python's `str.isspace()` set as code-point ranges; `SpaceIsNotLetter` separates it from the letters |
| `Transform.SpaceIsNotLetter` | mistral/views.py:108 | no character of the `\s` class is an ASCII letter |
| `Transform.ReplaceNewlines` | mistral/views.py:106 | same length, every newline becomes a space and every other character stays at its position, no newline remains |
| `Transform.DeleteBackslashes` | mistral/views.py:107 | no backslash remains, never longer than the input |
| `Transform.LeadingLetters` | mistral/views.py:108 | the greedy `[A-Za-z]+` group: never longer than the text; `SplitAtLetters` and `LettersOf` show it is the maximal run of letters at the start |
| `Transform.AfterLetters` | mistral/views.py:108 | what follows the greedy letter run is no longer than the input and does not start with a letter |
| `Transform.MergePairs` | mistral/views.py:108 | no contract of its own: the `re.sub` scan; every step is fixed by `MergeStep` (a match), `MergeSkipsRun` (a letter run that starts no match) and `MergeCopies` (a non-letter), and the whole by `MergeDeletesOnlySpace`, `MergeKeepsNonSpace`, `MergeNoLonger`, `MergeKeepsAbsent` and `MergeUnchangedIff` |
| `Transform.MatchAtStart` | mistral/views.py:108 | no contract of its own: the pattern matches at the scan position; `MatchAtStartIff` shows that backtracking finds no match the greedy run misses |
| `Transform.TransformText` | mistral/views.py:105-109 | the result holds no newline and no backslash and is never longer than the input |
| `Transform.TrimStart` | mistral/views.py:149 | `lstrip()`: a suffix of the input that is empty or starts with a non-whitespace character |
| `Transform.TrimEnd` | mistral/views.py:149 | `rstrip()`: a prefix of the input that is empty or ends with a non-whitespace character |
| `Transform.Strip` | mistral/views.py:149 | `strip()`: no longer than the input, no whitespace at either end; `StripIsSlice` adds that only the two ends are removed |
| `Transform.StripIsSlice` | mistral/views.py:149 | `strip()` removes whitespace only at the two ends: the result is a contiguous run of the text, character for character, and everything before and after it is whitespace |
| `Transform.TrimStartDropsSpace` | mistral/views.py:149 | what `lstrip()` removes is all whitespace |
| `Transform.TrimEndDropsSpace` | mistral/views.py:149 | what `rstrip()` removes is all whitespace |
| `Transform.SplitAtLetters` | mistral/views.py:108 | the text is its leading letter run followed by the rest, and that run is all letters |
| `Transform.LettersOf` | mistral/views.py:108 | a run of letters followed by a non-letter or the end is exactly what the greedy group takes |
| `Transform.MatchPieces` | mistral/views.py:108 | a match splits the text into letter run, one whitespace character, letter run and rest, and the scan emits the two runs joined and goes on with the rest |
| `Transform.MergeNoLonger` | mistral/views.py:108 | the `re.sub` step never lengthens its input |
| `Transform.MergeKeepsAbsent` | mistral/views.py:108 | a character absent from the input is absent from the `re.sub` result |
| `Transform.DeleteKeepsAbsent` | mistral/views.py:107 | deleting backslashes introduces no character |
| `Transform.SpaceDeletedKeepsNonSpace` | mistral/views.py:108 | deleting whitespace characters keeps the non-whitespace characters, in order |
| `Transform.MergeDeletesOnlySpace` | mistral/views.py:108 | the `re.sub` step only deletes whitespace characters: every other character is kept in order, and nothing is added, replaced or moved |
| `Transform.MergeKeepsNonSpace` | mistral/views.py:108 | the non-whitespace characters come out of the `re.sub` step unchanged and in order |
| `Transform.TransformDeletesOnlySpace` | mistral/views.py:105-109 | the result is the text after the two `replace` calls with some whitespace characters deleted and nothing else changed |
| `Transform.CleanKeepsVisible` | mistral/views.py:106-107 | after the two `replace` calls the non-whitespace characters are exactly the input's non-whitespace, non-backslash characters |
| `Transform.TransformKeepsVisible` | mistral/views.py:105-109 | the output's non-whitespace characters, in order, equal the input's non-whitespace, non-backslash characters |
| `Transform.MatchAtStartIff` | mistral/views.py:108 | the greedy test holds if and only if the pattern matches at the start for some length j of the first letter run (`PatternAt`: letters before j, whitespace at j, a letter at j + 1), as a backtracking regular-expression engine tries |
| `Transform.MatchIsPair` | mistral/views.py:108 | a match at the scan position is a letter, one whitespace character and a letter in a row |
| `Transform.MergeIdentity` | mistral/views.py:108 | without a letter–whitespace–letter sequence the `re.sub` step returns its input |
| `Transform.MatchShrinks` | mistral/views.py:108 | a match deletes its whitespace character |
| `Transform.MergeShrinks` | mistral/views.py:108 | a letter–whitespace–letter sequence anywhere makes the result strictly shorter |
| `Transform.MergeUnchangedIff` | mistral/views.py:108 | the `re.sub` step leaves its input unchanged if and only if the input has no letter–whitespace–letter sequence |
| `Transform.DeleteWithoutBackslash` | mistral/views.py:107 | text without a backslash is unchanged by the deletion |
| `Transform.TransformIdentity` | mistral/views.py:105-109 | text with no newline, no backslash and nothing to merge is returned unchanged |
| `Transform.MergeStep` | mistral/views.py:108 | letter run, one whitespace character, letter run: the two runs are joined and the scan resumes after the second run |
| `Transform.MergeCopies` | mistral/views.py:108 | a non-letter at the scan position is copied and the scan moves on by one |
| `Transform.MergeSkipsRun` | mistral/views.py:108 | a letter run not followed by whitespace and a letter starts no match anywhere inside it: it is copied whole and the scan resumes after it |
| `Transform.MergeThreeWords` | mistral/views.py:108 | matches do not overlap: of three words separated by single whitespace only the first two are joined |
| `Transform.MergeFourWords` | mistral/views.py:108 | two matches in a row join words one and two and words three and four, keeping the whitespace between the pairs |
| `Transform.ExampleNonOverlapping` | mistral/views.py:108 | `"a b c"` becomes `"ab c"` |
| `Transform.ExampleTwoMatches` | mistral/views.py:108 | `"He llo Wor ld"` becomes `"Hello World"` |
| `Transform.ReplaceOneNewline` | mistral/views.py:106 | one newline between newline-free parts becomes a space |
| `Transform.DeleteOneBackslash` | mistral/views.py:107 | one backslash between backslash-free parts disappears, joining them |
| `Transform.ExampleNewline` | mistral/views.py:106 | the newline of `"He llo\nWor\\ld"` becomes a space |
| `Transform.ExampleBackslash` | mistral/views.py:107 | the backslash of `"He llo Wor\\ld"` disappears without leaving a space |
| `Transform.ExampleClean` | mistral/views.py:106-107 | the two `replace` calls turn `"He llo\nWor\\ld"` into `"He llo World"` |
| `Transform.ExampleOneMatch` | mistral/views.py:108 | `"He llo World"` becomes `"Hello World"` |
| `Transform.ExampleNewlineAndBackslash` | mistral/views.py:105-109 | `transform_text("He llo\nWor\\ld")` is `"Hello World"` |
| `Transform.TrimStartKeepsNonSpace` | mistral/views.py:149 | `lstrip()` removes whitespace only |
| `Transform.TrimEndKeepsNonSpace` | mistral/views.py:149 | `rstrip()` removes whitespace only |
| `Transform.StripKeepsNonSpace` | mistral/views.py:149 | `strip()` keeps every non-whitespace character, in order |
| `Transform.StripKeepsAbsent` | mistral/views.py:149 | `strip()` introduces no character |
| `Transform.StripIdempotent` | mistral/views.py:149 | stripping twice is stripping once |
| `Auth.Split` | mistral/views.py:35 | `split(' ')` always yields at least one field |
| `Auth.SplitJoin` | mistral/views.py:35 | joining the fields of `split(sep)` with `sep` gives back the text |
| `Auth.SplitPieces` | mistral/views.py:35 | no field holds the separator, and there is one field more than there are separators |
| `Auth.SplitFirst` | mistral/views.py:35 | the first field is the longest separator-free prefix |
| `Auth.BearerSplit` | mistral/views.py:34-35 | a header starting with `Bearer ` has a second field, the first field of the text after the prefix, so `[1]` never raises |
| `Auth.BearerToken` | mistral/views.py:34-35 | no contract of its own: the token taken from the header; characterised by `BearerSplit` and `BearerField` |
| `Auth.Gate` | mistral/views.py:29-42 | no contract of its own: the gate's decision; characterised by `GateMissing`, `GateReadsOnlyToken` and `GateAdmits`, and computed by `TokenRequired` |
| `Auth.TokenRequired` | mistral/views.py:26-44 | the outcome is the gate's decision, and `request.user_id` is set to the payload's `id` exactly when the request is admitted |
| `Auth.GateMissing` | mistral/views.py:29-31 | an absent or empty header gives 403 "Token is missing!" whatever the decoder would say |
| `Auth.BearerField` | mistral/views.py:34-35 | with `Bearer ` the token is the text after the prefix up to the next space; otherwise the token is the whole header |
| `Auth.GateReadsOnlyToken` | mistral/views.py:33-37 | the gate consults the decoder only on the token it extracted |
| `Auth.GateAdmits` | mistral/views.py:33-43 | the view runs if and only if the header is present and non-empty, the token decodes and the payload has an `id`, and it then sees that `id`; an expired token gives 403 "Token has expired!" and any other invalid token 403 "Invalid token!"; a payload without `id` raises a `KeyError` that escapes (`Unhandled`) |
| `Auth.FirstWithEmail` | mistral/views.py:61 | `filter(email=…).first()`: none exactly when no user has the email; otherwise a user with that email whose id is the least among them |
| `Auth.IssuedClaims` | mistral/views.py:71-75 | no contract of its own: the token payload `id`, `exp`, `iat` with times in whole seconds; `LoginIssues` states each claim |
| `Auth.LoginPost` | mistral/views.py:57-90 | no contract of its own: the login view; characterised by `LoginIssues`, `LoginMissingField` and `IssuedTokenPassesGate` |
| `Auth.LoginIssues` | mistral/views.py:61-90 | a token is issued if and only if the first user with the email exists and passes the password check; its payload has exactly the claims `id` (that user's id), `exp` (3600 s after the first clock reading) and `iat` (the second reading), the token is their encoding, and it is set as the HTTP-only cookie `token`; otherwise "User not found" or "Incorrect password", in that order |
| `Auth.LoginMissingField` | mistral/views.py:58-59 | a request without `email` or `password` crashes: with no `email` the error is `KeyError: 'email'`, else with no `password` it is `KeyError: 'password'` |
| `Auth.IssuedTokenPassesGate` | mistral/views.py:26-44 | a token issued by `Login.post`, bare or after `Bearer `, passes the gate with the user's id when the decoder returns the claims it was issued with |
| `Generation.Decimal` | mistral/views.py:137 | the status code is rendered as a non-empty string of decimal digits without a leading zero |
| `Generation.DecimalRoundTrip` | mistral/views.py:137 | reading the rendered status code gives back the code |
| `Generation.StatusMessage` | mistral/views.py:137 | no contract of its own: the error text for a failed upstream status; characterised by `StatusMessageCarriesStatus` |
| `Generation.StatusMessageCarriesStatus` | mistral/views.py:137 | the message is a fixed prefix followed by decimal digits that read back as the status |
| `Generation.Joined` | mistral/views.py:140-144 | no contract of its own: `combined_response` after the given lines; characterised by `JoinedAppend` and `JoinedIsSpacedFragments`, and it is the loop invariant of `GenerateText` |
| `Generation.FirstMalformed` | mistral/views.py:141-144 | the index of the first line whose reading raises, none exactly when every line reads |
| `Generation.GenerateSpec` | mistral/views.py:115-156 | no contract of its own: the view's answer, request sent upstream and lines read; characterised by `FailureOrder`, `BodyErrors`, `SuccessIff`, `StopsAtFirstMalformed` and `SuccessText`, and computed by `GenerateText` |
| `Generation.GenerateText` | mistral/views.py:115-156 | the view, with its line-reading loop, answers as `GenerateSpec` says: method check, body, prompt, upstream call, status, lines, then `strip(transform_text(...))` |
| `Generation.EndpointSpec` | mistral/views.py:26-44 | no contract of its own: the gate, then the view if admitted; characterised by `MissingTokenFirst`, and computed by `GenerateTextEndpoint` |
| `Generation.GenerateTextEndpoint` | mistral/views.py:26-44 | the decorated view: the gate decides, the view runs exactly when the gate admits, and `user_id` is set only then |
| `Generation.MissingTokenFirst` | mistral/views.py:29-31 | without a token every request, of any method, gets 403 "Token is missing!" and nothing is sent upstream |
| `Generation.FailureOrder` | mistral/views.py:116-156 | non-POST gives 405; a missing or falsy prompt gives 400; nothing goes upstream in either case; the request goes to `http://localhost:11434/api/generate` with model `mistral` and the prompt; a failure to connect gives 500 with its message and no line read; a non-200 status gives 500 with the status in the message and no line read |
| `Generation.BodyErrors` | mistral/views.py:119-123 | a POST body that does not decode gives 500 with the decoder's message; a JSON body that is not an object gives 500 with the message of the failed `get`; neither reaches the server |
| `Http.PyTypeName` | mistral/views.py:120 | no contract of its own: Python's type name for each decoded JSON value; it appears in the message `BodyErrors` states |
| `Http.Truthy` | mistral/views.py:123 | no contract of its own: Python truthiness of a JSON value; used through `Falsy` in `FailureOrder` |
| `Http.DictGet` | mistral/views.py:120 | no contract of its own: the value under a key, if any; used in `FailureOrder` |
| `Http.Falsy` | mistral/views.py:123 | no contract of its own: `not prompt`; `FailureOrder` states that it gives 400 and keeps the request from the server |
| `Http.NoGetMessage` | mistral/views.py:120 | no contract of its own: the `AttributeError` text when the body is not an object; stated in `BodyErrors` |
| `Generation.SuccessIff` | mistral/views.py:116-149 | the answer is 200 if and only if the request got upstream, the status was 200 and every line read; every line has then been read |
| `Generation.StopsAtFirstMalformed` | mistral/views.py:141-153 | the first line whose reading raises ends the loop with 500 and its error; no later line is read |
| `Generation.JoinedIsSpacedFragments` | mistral/views.py:140-144 | the loop's string is the fragments in arrival order, each followed by one space; empty lines add nothing |
| `Generation.SuccessText` | mistral/views.py:140-149 | a 200 answer is `strip(transform_text(...))` of the reassembled string; it has no newline, no backslash and no whitespace at either end; its non-whitespace characters are the fragments' non-whitespace, non-backslash characters in arrival order |
| `Similarity.Verdict` | mistral/views.py:187-190 | no contract of its own: the verdict string; characterised by `VerdictThreshold` |
| `Similarity.VerdictThreshold` | mistral/views.py:184-190 | "similar" if and only if the score is at least 0.8, and a higher score keeps that verdict |

## Left out

- `Register.post` and `UserSerializer` (lines 47-52) are left out. Validation and saving belong to the serializer, which is not part of this model.
- PyJWT signing and verification (lines 36, 81) are parameters: `decode: string -> Decoded` and `encode: claims -> string`. The model does not check HMAC or time-based claim validation.
- `json.loads` of the request body (line 119) is not modelled. The body arrives as a parsed `Body`: a JSON value, or the message of the decode error.
- Each streamed line (line 143) is taken as the outcome of reading it: blank, a fragment text, or an error message. The error covers undecodable JSON, a missing `response` field and a non-string value, and also an exception raised by `iter_lines()` itself partway through the stream, such as a dropped connection (line 141); each ends in 500 through the broad `except`.
- `requests.post(..., stream=True)` and `iter_lines()` (lines 133, 141) are a parameter. It maps the request (URL, model name and prompt) to a connection failure or to a status and its lines.
- `print` (line 147) is left out. The model assumes writing to standard output succeeds; if it raised, the broad `except` would answer 500.
- The clock readings of lines 73-74 are the parameters `expClock` and `iatClock`, in whole seconds, as PyJWT encodes them.
- Login.post: `request.data` values are strings, and `AuthenticationFailed` is an outcome carrying its detail. The HTTP status the framework gives it is not modelled.
- `check_password` (line 66) is a parameter.
- `SentenceTransformer` encoding and `torch` cosine similarity (lines 159, 177-181, 200-202) are floating-point work in foreign libraries. Only the threshold verdict is modelled, over a real score.
- The rest of `analyze_context` is not modelled: body parsing, the missing-field 400 and the 500 catch-all.
- Python strings may hold lone surrogate code points; Dafny's `char` cannot. Text is otherwise unrestricted.
- `mistral/urls.py` is routing only and is not part of this model.
