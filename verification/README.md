# flask-app `/auth` handler — Dafny model

The repository is one Flask endpoint, `POST /auth`, whose handler
`authenticate` checks the format of an email/password pair. It does not look
credentials up anywhere. The checks run in a fixed order, and the first one that
fails decides the response:

1. the decoded JSON body must be truthy → else 400 "Request must be a valid JSON.";
2. `email` and `password` must both be truthy → else 400 "Email and password are required.";
3. `re.match(r'[^@]+@gmail\.com$', email)` must succeed → else 400 "Invalid email format. Must be a valid @gmail.com address.";
4. the password must be a `str` of length at least 8 → else 400 "Invalid password format. Must be 8 digits.";
5. otherwise 200 "Authentication successful".

Any exception raised along the way is caught, and the handler sends 500
"An internal server error occurred."

The model has three modules:

- `Json` (`json.dfy`): the decoded body as a datatype `Value` (`Null | Bool | Num | Str | Arr | Obj`).
  It also defines Python truthiness (`Truthy`) and `dict.get` (`Get`).
- `Gmail` (`gmail.dfy`): the single regular expression, written as explicit predicates over `seq<char>`.
  - `IsGmail` is the decision: find the first `'@'`, then check that the run before it is non-empty and that `"@gmail.com"` or `"@gmail.com\n"` follows.
  - `RegexMatch` is the reference semantics of `re.match` for this pattern. The match is anchored at position 0. `[^@]+` consumes `n ≥ 1` non-`'@'` characters, then the literal follows. Python's `$` then matches at the end of the string or just before one final newline.
  - `SearchMatch` is the unanchored `re.search`. The handler does not use it. It is there to show what start anchoring rules out.
- `Auth` (`auth.dfy`): the handler.
  - `TryBlock` is the body of the `try` statement. It returns a `Raises<Outcome>`: either an outcome, or one of the exceptions the body can raise.
  - `request.json` raising gives `BodyError`. `.get` on a non-dict gives `AttributeError`. `re.match` on a non-str gives `TypeError`.
  - `Authenticate` is the catch-all: it maps every raise to `InternalError`.
  - `Outcome.Status` and `Outcome.Message` give the fixed status code and message of each outcome.

The input is a `Request`: `Parsed(v)` when `request.json` returned the value
`v`, or `Unparseable` when it raised. When `request.json` returns `None`, that is `Parsed(Null)`.

Behaviour of app.py that its messages and docstring do not make obvious:

- The email pattern is anchored at the start too, because `re.match` is used, not `re.search`. So `"a@b@gmail.com"` is rejected (`Gmail.StartAnchoring`).
- When `request.json` raises on a body it cannot decode, the handler answers 500, not the 400 "Request must be a valid JSON.". The `except Exception` at app.py:45 catches the exception raised by `request.json`. Only a decoded falsy body (`null`, `false`, `0`, `""`, `[]`, `{}`) gets the 400 "Request must be a valid JSON.".
- A truthy body that is not a dict is also answered with 500. A non-empty list, a non-empty string, a non-zero number and `true` all have no `.get`.
- The password rule is exactly `isinstance(password, str) and len(password) >= 8` (app.py:39). The prose around it describes a stricter rule: the docstring says "must be exactly 8 digits long" (app.py:14), the comment says "must be 8 digits long" and "if all characters are digits, and if the length is 8" (app.py:37-38), and the 400 message says "Must be 8 digits." (app.py:40). The model keeps the code's lenient rule (`Auth.PasswordRuleShape`). `Auth.PasswordExamples` shows `"abcdefgh"` and `"123456789"` passing.

## Model

| member | source | states |
|---|---|---|
| Json.FalsyValues | app.py:23-24 | a decoded value is falsy for `not data` iff it is one of null, false, 0, "", [], {} |
| Json.AbsentAndNullAgree | app.py:26-31 | `dict.get` reads an absent key and a key set to null alike, and both are falsy for the presence check |
| Json.Truthy | app.py:23-30 | Python truthiness of a decoded value, as used by `not data` and `not email or not password`; characterised by `Json.FalsyValues` |
| Json.Get | app.py:26-27 | `dict.get(key)`: the stored value, or None for an absent key; its absent-key case is stated by `Json.AbsentAndNullAgree` |
| Gmail.FirstAt | app.py:34 | the index where `[^@]` stops: no character before it is '@', and it is '@' unless it is the end of the string |
| Gmail.FirstAtAfterPrefix | app.py:34 | in `p + rest` with '@'-free `p` and `rest` starting with '@', the first '@' is at index `|p|` |
| Gmail.IsGmail | app.py:34 | the email check; `Gmail.IsGmailIsRegexMatch` proves it equal to the start-anchored `re.match` of `[^@]+@gmail\.com$`, and `Gmail.EmailAcceptance` gives the accepted shape |
| Gmail.RegexMatch | app.py:34 | the meaning of `re.match(r'[^@]+@gmail\.com$', s)`: a match anchored at position 0 in which `[^@]+` takes some `n >= 1` non-'@' characters, the literal follows, and `$` matches at the end or before one final newline; `Gmail.IsGmailIsRegexMatch` proves the explicit check equal to it |
| Gmail.IsGmailIsRegexMatch | app.py:34 | the explicit check accepts a str iff the start-anchored regex `[^@]+@gmail\.com$` (with Python's `$`) has a match on it |
| Gmail.EmailAcceptance | app.py:34-35 | a str is accepted iff it equals `p + "@gmail.com" + t` with `p` non-empty and '@'-free and `t` either "" or "\n" |
| Gmail.SplitAtFirstAt | app.py:34 | for a str whose first '@' follows prefix `p`, acceptance holds iff `p` is non-empty and exactly "gmail.com" or "gmail.com\n" follows the '@' |
| Gmail.EmailAcceptedExamples | app.py:34 | "user@gmail.com" is accepted, and so is "user@gmail.com\n" because `$` matches before a final newline |
| Gmail.EmptyLocalPartRejected | app.py:34 | "@gmail.com" is rejected because `[^@]+` needs at least one character |
| Gmail.UpperCaseDomainRejected | app.py:34 | "user@GMAIL.com" is rejected because the literal is case-sensitive |
| Gmail.OtherProviderRejected | app.py:34 | "user@yahoo.com" is rejected |
| Gmail.LongerDomainRejected | app.py:34 | "user@gmail.com.au" is rejected because `$` requires the domain to end the string |
| Gmail.TwoNewlinesRejected | app.py:34 | "user@gmail.com\n\n" is rejected because `$` skips at most one final newline |
| Gmail.StartAnchoring | app.py:34 | "a@b@gmail.com" is rejected although an unanchored search finds a match in it |
| Auth.ReadJson | app.py:22 | `request.json`: the decoded body, or the exception it raised; its effect is stated by `Auth.FalsyBody` and `Auth.InternalErrorRule` |
| Auth.DictGet | app.py:26-27 | `data.get(key)`, raising on a body that is not a dict; its effect is stated by `Auth.MissingFieldsRule` and `Auth.InternalErrorRule` |
| Auth.ReMatch | app.py:34 | `re.match` of the email pattern, raising on an email that is not a str; its effect is stated by `Auth.InvalidEmailRule` and `Auth.InternalErrorRule` |
| Auth.PasswordOk | app.py:39 | `isinstance(password, str) and len(password) >= 8`; characterised by `Auth.PasswordRuleShape` |
| Auth.PasswordRuleShape | app.py:39 | the password verdict depends only on the length of a str, stays true when the password is lengthened, and is false for every non-str |
| Auth.TryBlock | app.py:20-43 | the `try` body: the four checks in order, each raise propagated; `Auth.InternalErrorRule` states exactly when it raises |
| Auth.Authenticate | app.py:8-48 | the handler with its catch-all; characterised, one outcome per lemma, by `Auth.FalsyBody`, `Auth.MissingFieldsRule`, `Auth.InvalidEmailRule`, `Auth.InvalidPasswordRule`, `Auth.SuccessRule` and `Auth.InternalErrorRule` |
| Auth.Outcome.Status | app.py:24-48 | the status code each return sends: 400 at app.py:24, 31, 35 and 40, 200 at app.py:43, 500 at app.py:48; `Auth.StatusClasses` states the classes |
| Auth.Outcome.Message | app.py:24-48 | the `message` each return sends, copied character for character: "Request must be a valid JSON." (24), "Email and password are required." (31), "Invalid email format. Must be a valid @gmail.com address." (35), "Invalid password format. Must be 8 digits." (40), "Authentication successful" (43), "An internal server error occurred." (48); `Auth.StatusClasses` proves them pairwise distinct |
| Auth.StatusClasses | app.py:24-48 | status 200 iff success, 500 iff internal error, 400 for the other four outcomes; the six messages are pairwise distinct |
| Auth.FalsyBody | app.py:22-24 | the malformed-body response is sent iff the body decoded to a falsy value, before any field is read |
| Auth.MissingFieldsRule | app.py:26-31 | the missing-fields response is sent iff the body is a truthy dict whose `email` or `password` is absent or falsy, whatever the other field holds |
| Auth.InvalidEmailRule | app.py:33-35 | the invalid-email response is sent iff both fields are present and the email is a str the pattern rejects |
| Auth.InvalidPasswordRule | app.py:37-40 | the invalid-password response is sent iff the email is an accepted str and the password is not a str of length at least 8 |
| Auth.SuccessRule | app.py:42-43 | 200 iff the body is a truthy dict, both fields are truthy, the email is a str the pattern accepts and the password is a str of length at least 8 |
| Auth.InternalErrorRule | app.py:20-48 | 500 iff reading the body raised, the body is a truthy non-dict, or both fields are present and the email is not a str; and 500 iff the try block raised |
| Auth.EmailCheckedBeforePassword | app.py:34-40 | an email the pattern rejects is reported whatever the password is |
| Auth.PresenceCheckedBeforeEmail | app.py:30-35 | a missing or falsy password is reported even when the email is not a str, which would otherwise raise |
| Auth.CredentialsRule | app.py:23-43 | for a body of two str fields: empty field gives missing fields, then rejected email, then password shorter than 8, else success |
| Auth.PasswordExamples | app.py:37-40 | two 8-character passwords, one of letters and one of digits, pass; 9 pass; 7 fail (the all-inputs rule is `Auth.PasswordRuleShape` with `Auth.InvalidPasswordRule`) |
| Auth.BadEmailExample | app.py:34-40 | "user@yahoo.com" with a 7-character password is reported as an invalid email |
| Auth.BodyShapeExamples | app.py:22-48 | `{}` is a malformed body, and a non-empty list body gives 500 |

## Left out

- Flask machinery (app.py:1-7, 50-52): creating the app, routing, `jsonify` and `app.run` on host 0.0.0.0, port 5000. The model produces the outcome, and `Outcome.Status`/`Outcome.Message` give its status and message.
- How `request.json` decodes the body. Its behaviour on malformed bodies or wrong content types depends on the Flask version. The model takes its result as input: a decoded `Value`, or `Unparseable` when it raised.
- Logging of the exception (app.py:47). It is I/O and does not change the response.
- Regular expressions in general. Only the single pattern at app.py:34 is modelled.
- Non-finite numbers (`NaN`, `Infinity`) that Python's JSON decoder accepts. They are truthy non-str values, so they would behave like `Num(1.0)`. `Num` holds only finite values.
- Duplicate keys in a JSON object. Python keeps the last one. `Obj` is a map, so the model sees the decoded dict directly.
- Lone surrogate code points, which Python str can hold. Dafny `char` does not represent them.
- Concurrency and per-request server behaviour. Each request is handled independently with no shared state, and the model is a pure function, so repeating a request gives the same response.
