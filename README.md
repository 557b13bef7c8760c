# Wellness buddy: a verified model of its core

This project models four parts of the wellness-buddy health app in Dafny.

- **Fitbit service** (`fitbit_service.dfy`, module `FitbitService`):
  - the OAuth authorisation URL;
  - the shaping of the profile, activity, sleep and heart-rate responses into the app's records;
  - the age and BMI helpers;
  - the rule set that suggests goals;
  - `getAllUserData`, which puts these together.
- **Sign-up screen** (`signup_screen.dfy`, module `SignupScreen`):
  - the form state and the component's flags, as a class;
  - the goal and integration toggles;
  - submit and "Start Over";
  - the BMI and age classifications of the insight text;
  - the "Connected Health Apps" line.
- **User store** (`user_data_manager.dfy`, module `UserData`): a class over the dictionary of profiles and its metadata. It supports save, get, get-all and delete, and keeps the invariant that `total_users` is the number of stored users.
- **Scraper sources** (`base_scraper.dfy`, module `Scrapers`): `WebScraper.load_sources`. It strips each line, skips blank and comment lines, and computes `urlparse(url).netloc` with "www." removed and '.' turned into '_'. It then groups the URLs by that key in dictionary insertion order.

Two shared modules support these:

- `js_values.dfy` (`JsValues`) holds JavaScript numbers: a finite real, the two infinities and NaN. It also holds comparison against constants, division, and the value of `toFixed(1)`.
- `js_objects.dfy` (`JsObjects`) holds plain objects with boolean values, as an ordered list of properties. The order is kept because the connected-apps text shows it. `Object.keys` lists keys in insertion order as long as none of them looks like an array index, which holds for the app's keys ("Fitbit", "Oura", "Apple Health", "Bloodwork Upload").

`wrappers.dfy` holds `Option`.

The project makes these choices:

- **Inputs as parameters.** HTTP responses, the clock and file contents are parameters:
  - each Fitbit shaping member takes the parsed JSON body;
  - `CalculateAge` takes today's date;
  - the user store takes the timestamp of each change;
  - `load_sources` takes the file's lines.
- **Imperative code stays imperative.** Where the source works step by step, the model does too: `suggestGoals`' pushes, the `load_sources` loop, and the dictionary updates of the user store. Each such method is proved against a specification function (`SuggestedGoals`, `Kept`/`UrlsOf`/`DomainsInOrder`).
- **Aliasing kept.** The user store keeps the caller's own profile dictionary, not a copy, so `Profile` is a class and `SaveUserProfile` modifies it.

## Model

| member | source | states |
|---|---|---|
| JsValues.Divide | fitbit-service.js:175 | `x / y` is finite exactly when `y != 0`, and then multiplies back to `x`. With `y == 0` it is +Infinity for a positive `x`, -Infinity for a negative `x`, and NaN for `0 / 0` |
| JsValues.LessThan | health_signup_mobile.jsx:83-84 | `n < t` against a constant: true for -Infinity, false for +Infinity and for NaN |
| JsValues.RoundToTenth | fitbit-service.js:175 | The value of `x.toFixed(1)` is within 0.05 of `x`, is a whole number of tenths below 1e21 and the input itself from 1e21 on, keeps the sign, and a tie goes away from zero |
| JsValues.ToFixed1 | fitbit-service.js:175 | `toFixed(1)` read back as a number: finite exactly when the input is, within 0.05 of it, a whole number of tenths below 1e21 and unchanged from 1e21 on; Infinity and NaN pass through |
| JsValues.RoundToTenthMonotone | fitbit-service.js:175 | Rounding to one decimal keeps the order of its arguments |
| JsObjects.Keys | health_signup_mobile.jsx:66 | `Object.keys(o)` lists each property's key, in property order |
| JsObjects.GetFound | health_signup_mobile.jsx:43 | In an object without repeated keys, `o[k]` reads the value stored under `k` |
| JsObjects.GetMissing | health_signup_mobile.jsx:43 | A missing key reads `undefined`, which is falsy |
| JsObjects.Put | health_signup_mobile.jsx:41-44 | `{...o, [k]: v}` keeps an existing key in its place and appends a new key last |
| JsObjects.PutGet | health_signup_mobile.jsx:41-44 | After the spread, `k` reads `v` and every other key reads what it read before |
| JsObjects.PutWellFormed | health_signup_mobile.jsx:41-44 | The spread never produces a repeated key |
| FitbitService.GetAuthorizationUrl | fitbit-service.js:13-16 | The URL is the authorise endpoint with `response_type=code`, then the client id, `&redirect_uri=`, the redirect URI, and the five scopes with `expires_in=604800`, each at its place |
| FitbitService.AuthorizationUrlDetermines | fitbit-service.js:13-16 | Two credential sets give the same URL only if client id and redirect URI agree, given a client id without '&' |
| FitbitService.CalculateAge | fitbit-service.js:160-171 | The result is the number of birthdays passed by today: one less than the year difference exactly when today's month and day come before the birth month and day; never negative for a birth date not in the future |
| FitbitService.AgeIsUnique | fitbit-service.js:160-171 | At most one age fits a birth date and a day, so `CalculateAge`'s contract fixes its result |
| FitbitService.CalculateBmi | fitbit-service.js:173-176 | For a non-zero height, the BMI is weight·10000/height² rounded to one decimal as `toFixed(1)` does: finite, within 0.05 of the quotient, a whole number of tenths below 1e21, and non-negative for a non-negative weight. Height 0 gives the division's Infinity or NaN |
| FitbitService.BmiExample | fitbit-service.js:173-176 | 75.5 kg at 175 cm gives 24.7 |
| FitbitService.GetUserProfile | fitbit-service.js:43-58 | The name is first name, one space, last name; the age is the age on `today`; gender, weight and height are copied |
| FitbitService.FirstDistance | fitbit-service.js:79 | The distance falls back to 0 when there is no first entry; otherwise it is the first entry's distance |
| FitbitService.GetActivityData | fitbit-service.js:75-80 | Steps and calories are copied, active minutes are very plus fairly active minutes, and the distance is the first distance or 0 |
| FitbitService.GetSleepData | fitbit-service.js:97-101 | Sleep hours are minutes asleep over 60, so they are below 7 exactly when under 420 minutes; efficiency and stages are copied |
| FitbitService.GetHeartRateData | fitbit-service.js:118-121 | The resting rate is present exactly when the first day has a value with a resting rate, and is then that rate; the zones likewise are present exactly when that value has zones, and are then those zones |
| FitbitService.FiredLabelsOfRules | fitbit-service.js:182-197 | The labels pushed are those of the four rules, each firing rule in table order |
| FitbitService.SuggestGoals | fitbit-service.js:178-205 | The pushes build exactly the fired labels, or the default pair when no rule fired |
| FitbitService.SuggestedGoalsShape | fitbit-service.js:178-205 | The suggestion has 1 to 5 labels from the five known ones; it is the default pair, or holds "Maintain Health" or "Longevity", exactly when no rule fires |
| FitbitService.SuggestedGoalsCounts | fitbit-service.js:182-197 | When a rule fires, "Improve Sleep" occurs once for short sleep plus once for a resting rate above 70, "Boost Energy" once for under 10000 steps plus once for the rate, and "Fat Loss" once for over 2500 calories; nothing else occurs |
| FitbitService.CountFired | fitbit-service.js:182-197 | How often a label occurs among the fired labels, rule by rule |
| FitbitService.SuggestedGoalsOrder | fitbit-service.js:182-197 | The sleep rule's label comes first when it fires; the heart-rate rule's pair comes last when it fires |
| FitbitService.MissingRestingRateNeverFires | fitbit-service.js:194-197 | An undefined resting rate behaves like a rate of 70, and then "Improve Sleep" occurs at most once |
| FitbitService.SuggestedGoalsSleepOnly | fitbit-service.js:178-205 | Short sleep alone gives `["Improve Sleep"]` |
| FitbitService.SuggestedGoalsNoneFires | fitbit-service.js:199-202 | No rule firing gives `["Maintain Health", "Longevity"]` |
| FitbitService.SuggestedGoalsAllFire | fitbit-service.js:178-205 | Every rule firing gives five labels, with the heart-rate pair repeated at the end |
| FitbitService.GetAllUserData | fitbit-service.js:129-152 | The record holds the profile, its BMI, the three data records, the suggested goals (never empty), and the connected apps Fitbit on, Oura and Apple Health off, in that order |
| SignupScreen.Without | health_signup_mobile.jsx:33 | `filter(g => g !== goal)` keeps every other goal with its multiplicity and order, and drops every copy of `goal` |
| SignupScreen.Toggled | health_signup_mobile.jsx:32-34 | An unselected goal is appended; a selected goal is removed, and every other goal keeps its count and order |
| SignupScreen.ToggleTwiceRestores | health_signup_mobile.jsx:29-36 | Selecting and then unselecting a goal gives back the list |
| SignupScreen.ToggleFlipsSelection | health_signup_mobile.jsx:29-36 | After a toggle the goal is selected exactly when it was not before |
| SignupScreen.ToggleKeepsDistinct | health_signup_mobile.jsx:29-36 | Toggling never lists a goal twice |
| SignupScreen.GoalToggled | health_signup_mobile.jsx:29-36 | The updater changes the goal list and no other field |
| SignupScreen.Flipped | health_signup_mobile.jsx:41-44 | The key's switch flips (a missing key turns on); other keys keep their value; key order follows the spread |
| SignupScreen.FlipTwice | health_signup_mobile.jsx:38-46 | Two toggles leave every switch as it was, and leave an object that already had the key unchanged |
| SignupScreen.PutTwice | health_signup_mobile.jsx:41-44 | Spreading a key to a new value and back gives back an object that had the key |
| SignupScreen.IntegrationToggled | health_signup_mobile.jsx:38-46 | The updater changes the integrations and no other field |
| SignupScreen.HasRequiredFields | health_signup_mobile.jsx:129 | The submit guard passes exactly when name, age, weight and height are all non-empty |
| SignupScreen.BmiCategory | health_signup_mobile.jsx:83 | The band is Underweight below 18.5, Normal weight below 25, Overweight below 30, and Obese otherwise; -Infinity is Underweight, and NaN and +Infinity are Obese |
| SignupScreen.BmiCategoryMonotone | health_signup_mobile.jsx:83 | A higher BMI never falls in a lighter band |
| SignupScreen.AgeGroup | health_signup_mobile.jsx:84 | Young Adult below 30, Adult below 50, Senior otherwise; -Infinity is Young Adult, and +Infinity and NaN are Senior |
| SignupScreen.AgeGroupMonotone | health_signup_mobile.jsx:84 | An older user never falls in a younger group |
| SignupScreen.EnabledKeys | health_signup_mobile.jsx:66 | `Object.keys(o).filter(key => o[key])` is an ordered selection of the keys that holds every switched-on property |
| SignupScreen.EnabledKeysExactly | health_signup_mobile.jsx:66 | Without repeated keys, a key is listed exactly when `o[key]` is truthy |
| SignupScreen.Join | health_signup_mobile.jsx:66 | `keys.join(', ')`: empty for no keys, starting with the first key, followed by ", " when there is a second |
| SignupScreen.ConnectedAppsText | health_signup_mobile.jsx:66 | The line is "None" when no app is on, and otherwise the joined list |
| SignupScreen.SplitJoin | health_signup_mobile.jsx:66 | `join(', ')` of comma-free names can be split back into the names |
| SignupScreen.ConnectedAppsListsEnabled | health_signup_mobile.jsx:66 | The line names exactly the switched-on apps in key order, and reads "None" only when none is on (or the one on is itself called "None") |
| SignupScreen.SignupScreen.constructor | health_signup_mobile.jsx:16-27 | The screen starts with the empty form, gender "male", no insights, and not loading |
| SignupScreen.SignupScreen.ToggleGoal | health_signup_mobile.jsx:29-36 | The form becomes the goal updater's result; the flags are unchanged |
| SignupScreen.SignupScreen.ToggleIntegration | health_signup_mobile.jsx:38-46 | The form becomes the integration updater's result; the flags are unchanged |
| SignupScreen.SignupScreen.HandleSubmit | health_signup_mobile.jsx:128-145 | A missing name, age, weight or height changes nothing. Otherwise the form is sent, loading ends false, and a resolved response is shown while a rejected one leaves the insights as they were |
| SignupScreen.SignupScreen.ResetForm | health_signup_mobile.jsx:147-159 | The form returns to its initial state and the insights are hidden and cleared |
| UserData.Erase | user_data_manager.py:85 | Taking an id out keeps exactly the other ids, and keeps distinct ids distinct |
| UserData.EraseAppend | user_data_manager.py:85 | Taking an id out works piece by piece, so the remaining ids keep their relative order |
| UserData.EraseAbsent | user_data_manager.py:84-85 | An id that is not listed leaves the order as it is |
| UserData.EraseAt | user_data_manager.py:85 | In the key order, deleting the id at position i leaves exactly the ids before and after it, so `get_all_users` keeps its order after a delete |
| UserData.DistinctCount | user_data_manager.py:52 | A list of distinct ids has as many entries as the set of ids |
| UserData.UserDataManager.constructor | user_data_manager.py:18-28 | A new store has no users, a count of 0, and both timestamps set to the creation time |
| UserData.UserDataManager.CountMatchesOrder | user_data_manager.py:52 | `total_users` equals the number of ids that `get_all_users` walks through |
| UserData.UserDataManager.SaveUserProfile | user_data_manager.py:41-59 | The caller's dictionary gets `last_updated` and `user_id`, and is stored under the id. A new id goes last in the order. The count is the number of users; `last_updated` is now; it returns True |
| UserData.UserDataManager.GetUserProfile | user_data_manager.py:65-71 | The stored dictionary for a known id, None for an unknown one |
| UserData.UserDataManager.GetAllUsers | user_data_manager.py:73-79 | Every stored profile, one per user, in insertion order |
| UserData.UserDataManager.DeleteUserProfile | user_data_manager.py:81-96 | A known id is removed from the dictionary and the order, and the count drops by one; an unknown id changes nothing and returns False |
| UserData.SaveThenGet | user_data_manager.py:41-71 | After a save, reading the id gives the caller's own dictionary, stamped with the id and the time |
| Scrapers.TrimLeft | longivity-llm/scrapers/base_scrapper.py:18 | Removes exactly the leading whitespace |
| Scrapers.TrimRight | longivity-llm/scrapers/base_scrapper.py:18 | Removes exactly the trailing whitespace |
| Scrapers.SpaceCharacters | longivity-llm/scrapers/base_scrapper.py:18 | The characters Python's `str.isspace` accepts, which `strip()` removes: space, tab, carriage return and line feed among them, and never '#', ':', '/' or '.' |
| Scrapers.Strip | longivity-llm/scrapers/base_scrapper.py:18 | `line.strip()` neither starts nor ends with whitespace, and is empty exactly when the line is all whitespace |
| Scrapers.StripIsSlice | longivity-llm/scrapers/base_scrapper.py:18 | The stripped line is a slice of the line with only whitespace around it |
| Scrapers.StripIdempotent | longivity-llm/scrapers/base_scrapper.py:18 | Stripping twice is stripping once |
| Scrapers.Skipped | longivity-llm/scrapers/base_scrapper.py:19 | The test `not url or url.startswith("#")` after `strip()`: a blank or all-whitespace line and a line starting with '#' are skipped, and a kept line holds a character that is neither whitespace nor '#' |
| Scrapers.Kept | longivity-llm/scrapers/base_scrapper.py:17-20 | The kept URLs are at most as many as the lines |
| Scrapers.KeptStep | longivity-llm/scrapers/base_scrapper.py:17-20 | Each line adds its stripped text, unless that is empty or starts with '#' |
| Scrapers.KeptAppend | longivity-llm/scrapers/base_scrapper.py:17-20 | Filtering splits over a concatenation of line lists |
| Scrapers.SkippedLineIgnored | longivity-llm/scrapers/base_scrapper.py:19-20 | A blank or comment line contributes nothing, wherever it stands |
| Scrapers.LstripC0 | longivity-llm/scrapers/base_scrapper.py:21 | `urlsplit` first drops the leading C0 controls and spaces: the result is a suffix of the URL, everything removed is at most ' ', and it does not start with such a character |
| Scrapers.RemoveUnsafe | longivity-llm/scrapers/base_scrapper.py:21 | `urlsplit` deletes every tab, carriage return and line feed; the result holds none of them |
| Scrapers.RemoveUnsafeChar | longivity-llm/scrapers/base_scrapper.py:21 | One character is dropped exactly when it is a tab, carriage return or line feed |
| Scrapers.RemoveUnsafeAppend | longivity-llm/scrapers/base_scrapper.py:21 | The deletion works piece by piece, so the other characters are kept in order |
| Scrapers.RemoveUnsafeKeepsSafe | longivity-llm/scrapers/base_scrapper.py:21 | A URL without those characters is not changed |
| Scrapers.Find | longivity-llm/scrapers/base_scrapper.py:21 | `url.find(':')`, by which `urlsplit` finds the scheme: the first index holding the character, or the length when there is none |
| Scrapers.AfterScheme | longivity-llm/scrapers/base_scrapper.py:21 | Takes off a valid scheme and its ':'; a URL without a valid scheme is kept whole |
| Scrapers.CleanedOfScheme | longivity-llm/scrapers/base_scrapper.py:21 | For `scheme:tail` with a valid scheme, only `tail` is left |
| Scrapers.NetlocEnd | longivity-llm/scrapers/base_scrapper.py:21 | The network location ends at the first '/', '?' or '#' |
| Scrapers.Netloc | longivity-llm/scrapers/base_scrapper.py:21 | `urlparse(url).netloc` holds no '/', '?', '#', tab, carriage return or line feed |
| Scrapers.NetlocOfUrl | longivity-llm/scrapers/base_scrapper.py:21 | For `scheme://host` followed by nothing or a path, query or fragment, the network location is exactly `host` |
| Scrapers.ReplaceAll | longivity-llm/scrapers/base_scrapper.py:21 | `str.replace` introduces no character that is in neither the string nor the replacement |
| Scrapers.ReplaceCharPointwise | longivity-llm/scrapers/base_scrapper.py:21 | `replace(".", "_")` changes exactly the positions holding '.', to '_', and keeps the rest and the length |
| Scrapers.ReplaceAllAbsent | longivity-llm/scrapers/base_scrapper.py:21 | `replace` changes nothing when the pattern does not occur |
| Scrapers.ReplaceAllLeading | longivity-llm/scrapers/base_scrapper.py:21 | A leading occurrence is replaced and the scan goes on after it |
| Scrapers.ReplaceCharRemovesIt | longivity-llm/scrapers/base_scrapper.py:21 | Replacing '.' by '_' leaves no '.' and keeps the length |
| Scrapers.DomainKey | longivity-llm/scrapers/base_scrapper.py:21 | A group key never contains '.' |
| Scrapers.DomainKeyOfUrl | longivity-llm/scrapers/base_scrapper.py:21 | The key of `scheme://www.host` followed by a path, query, fragment or nothing, for a host with no further "www.", is the host with every '.' turned into '_' |
| Scrapers.UrlsOf | longivity-llm/scrapers/base_scrapper.py:22-24 | A group holds exactly the URLs with its key, in file order |
| Scrapers.DomainsInOrder | longivity-llm/scrapers/base_scrapper.py:22-23 | The keys in the order a new key enters the dictionary: at most one per URL, and the first URL's key comes first |
| Scrapers.DomainsInOrderExactly | longivity-llm/scrapers/base_scrapper.py:22-23 | A key is listed exactly when some URL has it, and only once |
| Scrapers.UrlsOfAppend | longivity-llm/scrapers/base_scrapper.py:22-24 | Grouping splits over a concatenation |
| Scrapers.GroupsCoverAll | longivity-llm/scrapers/base_scrapper.py:22-24 | The group sizes add up to the number of URLs: each URL is in exactly one group |
| Scrapers.AddUrl | longivity-llm/scrapers/base_scrapper.py:22-24 | Creating the list of a new key and appending the URL gives the grouping of the URLs seen so far plus this one |
| Scrapers.LoadSourcesBy | longivity-llm/scrapers/base_scrapper.py:14-25 | The loop builds the grouping of the kept URLs, for any key function |
| Scrapers.LoadSources | longivity-llm/scrapers/base_scrapper.py:14-25 | `load_sources` returns the kept URLs grouped by their host key, keys in first-appearance order |
| Scrapers.LoadedGroupsNonEmpty | longivity-llm/scrapers/base_scrapper.py:22-24 | Every key is listed once, and no list is empty |
| Scrapers.LoadedKeysMatch | longivity-llm/scrapers/base_scrapper.py:21-24 | Each list holds only URLs with its own key, and no key contains '.' |
| Scrapers.LoadedUrlsCovered | longivity-llm/scrapers/base_scrapper.py:14-25 | Every kept URL is in its key's list, and the lists hold one entry per kept line |

## Left out

**Fitbit service**

- The HTTP requests, `getAccessToken` and the `try`/`catch` logging in `fitbit-service.js` are left out, because they depend on the network. Each shaping member takes the already parsed response.
- A missing field of a response is left out, because the model takes well-typed records.
- The clock is a parameter: `CalculateAge` takes today's date.
- `new Date(dateOfBirth)` string parsing and time zones are left out. The birth date arrives as a year, month and day.
- `FitbitService.CalculateBmi` and `JsValues.ToFixed1` compute over exact reals, so the IEEE-754 rounding of the quotient before `toFixed` is not modelled. The result is the exact quotient rounded to tenths, which can differ from JavaScript's in the last digit when the binary quotient falls just beside a tie.
- The value is the number that the `toFixed(1)` string denotes. The string itself, such as "24.7", is not modelled.
- `FitbitService.GetAllUserData` builds its `connectedApps` object with the key "Apple Health". As written, `Apple Health: false` in `fitbit-service.js` is an unquoted key with a space, which JavaScript does not parse; the model uses the evident intent.
- `Promise.all` concurrency is left out, because the four results are independent.

**Sign-up screen**

- `calculateBMI` in `health_signup_mobile.jsx` is the same code as the service's and is modelled once, as `FitbitService.CalculateBmi`.
- `parseFloat` of the form's text fields is left out.
- The text of the prompt and of the mocked insight is left out. Only the expressions that compute BMI band, age group and connected apps are modelled.
- The JSX rendering, the `Alert` calls, `console.log` and the text-field, gender-picker and goal-list UI are left out.
- `SignupScreen.AgeGroup` takes the age as a number. JavaScript's conversion of the text field for `<` is left out.
- `SignupScreen.SignupScreen.HandleSubmit` takes the insight result as a parameter; the mocked `getClaudeInsights` always resolves. React's batching of state updates is left out.

**User store**

- `user_data_manager.py` reads and writes a JSON file and reads the clock; both are left out. The store starts as `_load_users` creates it when there is no file, and each change takes its timestamp as a parameter, used for both stamps.
- The `_load_users` exception path and loading an existing file are not modelled.
- The `print` messages are left out.
- The `except` branches of the operations are left out. They return False, None or [], but cannot be reached on the modelled state, which always has the `users` and `metadata` entries.

**Scraper**

- `fetch`, `parse_html` and `scrape` in `base_scrapper.py` are left out, because they need the network, BeautifulSoup and file output. `load_sources` takes the file's lines.
- `Scrapers.Netloc` follows `urlsplit` as written in CPython 3.11.4 and later, and in the 3.9.17 and 3.10.12 security releases. Those versions strip leading C0 controls and spaces and delete tab, carriage return and line feed. Earlier releases do neither or only the second, and are not modelled. Also not modelled:
  - the ValueError for an unbalanced '[' or ']' in an IPv6 host;
  - the ValueError that CPython 3.12 and later raise for a bracketed host that is not an IPv6 or IPvFuture address, such as `http://[example]/`;
  - the NFKC check on the network location;
  - lower-casing of the scheme;
  - the rule of releases before 3.9 that kept a scheme followed only by a port number.
- `Scrapers.Kept` states only a length bound in its own contract. Its meaning is stated by `Scrapers.KeptStep`, `Scrapers.KeptAppend` and `Scrapers.SkippedLineIgnored`.
- `Scrapers.DomainKey` states only that its result holds no '.'. `Scrapers.DomainKeyOfUrl` gives the key of a URL whose host starts with the only "www.". That `"www."` is removed wherever it occurs in the host, not only at the start, follows from the definition and is not stated as a lemma.
- `JsObjects` keeps properties in insertion order for every key. JavaScript lists integer-like keys such as "1" first, in ascending order; the app never uses such keys, and that ordering is not modelled.
