/**
 * The sign-up screen: the form's state, the updaters that toggle goals and
 * integrations, the submit and reset handlers, and the expressions that
 * classify the BMI and the age and list the connected apps. The rendering,
 * the alerts and the text of the mocked insight are not modelled.
 */
module SignupScreen {

  import opened Wrappers
  import opened JsValues
  import opened JsObjects

  /** The form; every text field holds what the user typed. */
  datatype FormData = FormData(
    name: string, age: string, weight: string, height: string, gender: string,
    goals: seq<string>, integrations: BoolObject)

  /** The form as the screen first shows it, and as "Start Over" leaves it. */
  const InitialForm: FormData := FormData("", "", "", "", "male", [], [])

  // ---------------------------------------------------------------- goals

  /** `a` is `b` with some elements left out, the rest in their order. */
  predicate IsSubsequence(a: seq<string>, b: seq<string>)
  {
    if b == [] then a == []
    else (a != [] && a[0] == b[0] && IsSubsequence(a[1..], b[1..])) || IsSubsequence(a, b[1..])
  }

  /** `goals.filter((g) => g !== goal)`. */
  function Without(goals: seq<string>, goal: string): (r: seq<string>)
    ensures multiset(r) == multiset(goals)[goal := 0]
    ensures goal !in r
    ensures IsSubsequence(r, goals)
  {
    if goals == [] then []
    else
      assert goals == [goals[0]] + goals[1..];
      if goals[0] == goal then Without(goals[1..], goal)
      else [goals[0]] + Without(goals[1..], goal)
  }

  /** The new goal list of `toggleGoal(goal)`. */
  function Toggled(goals: seq<string>, goal: string): (r: seq<string>)
    ensures goal !in goals ==> r == goals + [goal]
    ensures goal in goals ==> goal !in r
    ensures goal in goals ==> forall g :: g != goal ==> multiset(r)[g] == multiset(goals)[g]
    ensures goal in goals ==> IsSubsequence(r, goals)
  {
    if goal in goals then Without(goals, goal) else goals + [goal]
  }

  lemma {:induction false} WithoutAbsent(goals: seq<string>, goal: string)
    requires goal !in goals
    ensures Without(goals, goal) == goals
  {
    if goals != [] {
      WithoutAbsent(goals[1..], goal);
    }
  }

  lemma {:induction false} WithoutAppended(goals: seq<string>, goal: string)
    requires goal !in goals
    ensures Without(goals + [goal], goal) == goals
  {
    if goals == [] {
      assert [goal][1..] == [];
    } else {
      assert (goals + [goal])[1..] == goals[1..] + [goal];
      WithoutAppended(goals[1..], goal);
    }
  }

  /** Toggling a goal that is not selected, then toggling it again, gives back the list. */
  lemma ToggleTwiceRestores(goals: seq<string>, goal: string)
    requires goal !in goals
    ensures Toggled(Toggled(goals, goal), goal) == goals
  {
    WithoutAppended(goals, goal);
  }

  /** After a toggle the goal is selected exactly when it was not before: its check mark flips. */
  lemma ToggleFlipsSelection(goals: seq<string>, goal: string)
    ensures goal in Toggled(goals, goal) <==> goal !in goals
  {
  }

  lemma {:induction false} SubsequenceKeepsDistinct(a: seq<string>, b: seq<string>)
    requires IsSubsequence(a, b) && Distinct(b)
    ensures Distinct(a)
  {
    if b != [] {
      assert Distinct(b[1..]) by {
        forall i, j | 0 <= i < j < |b| - 1 ensures b[1..][i] != b[1..][j] {
          assert b[1..][i] == b[i + 1] && b[1..][j] == b[j + 1];
        }
      }
      if a != [] && a[0] == b[0] && IsSubsequence(a[1..], b[1..]) {
        SubsequenceKeepsDistinct(a[1..], b[1..]);
        SubsequenceElements(a[1..], b[1..]);
        assert b[0] !in b[1..] by {
          forall k | 0 <= k < |b| - 1 ensures b[1..][k] != b[0] {
            assert b[1..][k] == b[k + 1];
          }
        }
        forall i, j | 0 <= i < j < |a| ensures a[i] != a[j] {
          assert a[j] == a[1..][j - 1];
          assert a[j] in b[1..];
          if i > 0 {
            assert a[i] == a[1..][i - 1];
          }
        }
      } else {
        SubsequenceKeepsDistinct(a, b[1..]);
      }
    }
  }

  lemma {:induction false} SubsequenceElements(a: seq<string>, b: seq<string>)
    requires IsSubsequence(a, b)
    ensures forall x :: x in a ==> x in b
  {
    if b != [] {
      if a != [] && a[0] == b[0] && IsSubsequence(a[1..], b[1..]) {
        SubsequenceElements(a[1..], b[1..]);
        assert a == [a[0]] + a[1..];
        assert b == [b[0]] + b[1..];
      } else {
        SubsequenceElements(a, b[1..]);
        assert b == [b[0]] + b[1..];
      }
    }
  }

  /** A goal list built only by toggling never lists a goal twice. */
  lemma ToggleKeepsDistinct(goals: seq<string>, goal: string)
    requires Distinct(goals)
    ensures Distinct(Toggled(goals, goal))
  {
    if goal in goals {
      SubsequenceKeepsDistinct(Without(goals, goal), goals);
    }
  }

  /** The updater that `toggleGoal` hands to `setFormData`. */
  function GoalToggled(prev: FormData, goal: string): (next: FormData)
    ensures next.goals == Toggled(prev.goals, goal)
    ensures next.(goals := prev.goals) == prev
  {
    prev.(goals := Toggled(prev.goals, goal))
  }

  // ---------------------------------------------------------------- integrations

  /** `{...o, [key]: !o[key]}`: a missing key reads as false and so is switched on. */
  function Flipped(o: BoolObject, key: string): (r: BoolObject)
    ensures Get(r, key) == !Get(o, key)
    ensures forall k :: k != key ==> Get(r, k) == Get(o, k)
    ensures Keys(r) == if key in Keys(o) then Keys(o) else Keys(o) + [key]
    ensures WellFormed(o) ==> WellFormed(r)
  {
    var v := !Get(o, key);
    PutGetAll(o, key, v);
    PutWellFormed(o, key, v);
    Put(o, key, v)
  }

  /** Switching an integration twice leaves every switch as it was, and an object that had the key unchanged. */
  lemma FlipTwice(o: BoolObject, key: string)
    ensures forall k :: Get(Flipped(Flipped(o, key), key), k) == Get(o, k)
    ensures WellFormed(o) && key in Keys(o) ==> Flipped(Flipped(o, key), key) == o
  {
    if WellFormed(o) && key in Keys(o) {
      PutTwice(o, key, !Get(o, key), Get(o, key));
    }
  }

  lemma {:induction false} PutTwice(o: BoolObject, key: string, v: bool, w: bool)
    requires WellFormed(o) && key in Keys(o) && w == Get(o, key)
    ensures Put(Put(o, key, v), key, w) == o
  {
    if o[0].key != key {
      assert Keys(o) == [o[0].key] + Keys(o[1..]);
      assert WellFormed(o[1..]) by {
        forall i, j | 0 <= i < j < |o[1..]| ensures o[1..][i].key != o[1..][j].key {
          assert o[1..][i] == o[i + 1] && o[1..][j] == o[j + 1];
        }
      }
      PutTwice(o[1..], key, v, w);
    }
  }

  /** The updater that `toggleIntegration` hands to `setFormData`. */
  function IntegrationToggled(prev: FormData, key: string): (next: FormData)
    ensures next.integrations == Flipped(prev.integrations, key)
    ensures next.(integrations := prev.integrations) == prev
  {
    prev.(integrations := Flipped(prev.integrations, key))
  }

  // ---------------------------------------------------------------- submit

  /** `!formData.name || !formData.age || …` is false: the four text fields are filled in. */
  predicate HasRequiredFields(f: FormData)
    ensures HasRequiredFields(f) <==> "" !in [f.name, f.age, f.weight, f.height]
  {
    f.name != "" && f.age != "" && f.weight != "" && f.height != ""
  }

  // ---------------------------------------------------------------- classifications

  const Underweight: string := "Underweight"
  const NormalWeight: string := "Normal weight"
  const Overweight: string := "Overweight"
  const Obese: string := "Obese"

  /** The BMI band named in the insight; NaN and +Infinity compare false every time and end up "Obese". */
  function BmiCategory(bmi: Number): (c: string)
    ensures c in {Underweight, NormalWeight, Overweight, Obese}
    ensures bmi.Finite? ==> (c == Underweight <==> bmi.value < 18.5)
    ensures bmi.Finite? ==> (c == NormalWeight <==> 18.5 <= bmi.value < 25.0)
    ensures bmi.Finite? ==> (c == Overweight <==> 25.0 <= bmi.value < 30.0)
    ensures bmi.Finite? ==> (c == Obese <==> 30.0 <= bmi.value)
    ensures !bmi.Finite? ==> (c == Underweight <==> bmi.NegativeInfinity?)
    ensures bmi.NaN? || bmi.PositiveInfinity? ==> c == Obese
  {
    if LessThan(bmi, 18.5) then Underweight
    else if LessThan(bmi, 25.0) then NormalWeight
    else if LessThan(bmi, 30.0) then Overweight
    else Obese
  }

  /** The place of a BMI band from lightest to heaviest. */
  function BmiRank(c: string): int
  {
    if c == Underweight then 0 else if c == NormalWeight then 1 else if c == Overweight then 2 else 3
  }

  /** A higher BMI never falls in a lighter band. */
  lemma BmiCategoryMonotone(a: real, b: real)
    requires a <= b
    ensures BmiRank(BmiCategory(Finite(a))) <= BmiRank(BmiCategory(Finite(b)))
  {
  }

  const YoungAdult: string := "Young Adult"
  const Adult: string := "Adult"
  const Senior: string := "Senior"

  /**
   * The age group named in the insight. The age is the typed text read as a
   * number; text that is not a number reads as NaN and ends up "Senior".
   */
  function AgeGroup(age: Number): (g: string)
    ensures g in {YoungAdult, Adult, Senior}
    ensures age.Finite? ==> (g == YoungAdult <==> age.value < 30.0)
    ensures age.Finite? ==> (g == Adult <==> 30.0 <= age.value < 50.0)
    ensures age.Finite? ==> (g == Senior <==> 50.0 <= age.value)
    ensures !age.Finite? ==> (g == YoungAdult <==> age.NegativeInfinity?)
    ensures age.NaN? || age.PositiveInfinity? ==> g == Senior
  {
    if LessThan(age, 30.0) then YoungAdult
    else if LessThan(age, 50.0) then Adult
    else Senior
  }

  function AgeRank(g: string): int
  {
    if g == YoungAdult then 0 else if g == Adult then 1 else 2
  }

  /** An older user never falls in a younger group. */
  lemma AgeGroupMonotone(a: real, b: real)
    requires a <= b
    ensures AgeRank(AgeGroup(Finite(a))) <= AgeRank(AgeGroup(Finite(b)))
  {
  }

  // ---------------------------------------------------------------- connected apps

  /** `Object.keys(o).filter(key => o[key])`. */
  function EnabledKeys(o: BoolObject): (ks: seq<string>)
    ensures IsSubsequence(ks, Keys(o))
    ensures forall i :: 0 <= i < |o| && o[i].value ==> o[i].key in ks
    ensures forall k :: k in ks ==> exists i :: 0 <= i < |o| && o[i].key == k && o[i].value
  {
    if o == [] then []
    else
      assert Keys(o) == [o[0].key] + Keys(o[1..]);
      assert forall i :: 0 < i < |o| ==> o[i] == o[1..][i - 1];
      var rest := EnabledKeys(o[1..]);
      if o[0].value then [o[0].key] + rest else rest
  }

  /** In an object without repeated keys, a key is listed exactly when its switch is on. */
  lemma EnabledKeysExactly(o: BoolObject, k: string)
    requires WellFormed(o)
    ensures k in EnabledKeys(o) <==> Get(o, k)
  {
    if k in EnabledKeys(o) {
      var i :| 0 <= i < |o| && o[i].key == k && o[i].value;
      GetFound(o, i);
    } else if k in Keys(o) {
      var i :| 0 <= i < |o| && Keys(o)[i] == k;
      GetFound(o, i);
    } else {
      GetMissing(o, k);
    }
  }

  /** `keys.join(', ')`. */
  function Join(keys: seq<string>): (text: string)
    ensures keys == [] ==> text == ""
    ensures keys != [] ==> |keys[0]| <= |text| && text[..|keys[0]|] == keys[0]
    ensures |keys| >= 2 ==> |keys[0]| + 2 <= |text| && text[|keys[0]|..|keys[0]| + 2] == ", "
  {
    if keys == [] then ""
    else if |keys| == 1 then keys[0]
    else keys[0] + ", " + Join(keys[1..])
  }

  /** The "Connected Health Apps" line of the prompt: the switched-on keys, or "None" when that list is empty. */
  function ConnectedAppsText(o: BoolObject): (text: string)
    ensures EnabledKeys(o) == [] ==> text == "None"
    ensures text != "None" ==> text == Join(EnabledKeys(o))
  {
    var joined := Join(EnabledKeys(o));
    if joined == "" then "None" else joined
  }

  /** The index of the first ", " in `s`, or |s| when there is none. */
  function FindSeparator(s: string): (i: nat)
    ensures i <= |s|
  {
    if |s| < 2 then |s|
    else if s[0] == ',' && s[1] == ' ' then 0
    else 1 + FindSeparator(s[1..])
  }

  /** Cuts a text at every ", ": the reader's view of a joined list. */
  function Split(s: string): seq<string>
    decreases |s|
  {
    var i := FindSeparator(s);
    if i + 2 <= |s| then [s[..i]] + Split(s[i + 2..]) else [s]
  }

  lemma {:induction false} FindSeparatorAfter(k: string, rest: string)
    requires ',' !in k
    ensures FindSeparator(k + ", " + rest) == |k|
  {
    if k != [] {
      assert (k + ", " + rest)[1..] == k[1..] + ", " + rest;
      FindSeparatorAfter(k[1..], rest);
    }
  }

  lemma {:induction false} FindSeparatorNone(k: string)
    requires ',' !in k
    ensures FindSeparator(k) == |k|
  {
    if |k| >= 2 {
      FindSeparatorNone(k[1..]);
    }
  }

  /** Joining keys that hold no comma and splitting the text again gives the keys back. */
  lemma {:induction false} SplitJoin(keys: seq<string>)
    requires keys != []
    requires forall k :: k in keys ==> ',' !in k
    ensures Split(Join(keys)) == keys
  {
    if |keys| == 1 {
      FindSeparatorNone(keys[0]);
    } else {
      var rest := Join(keys[1..]);
      FindSeparatorAfter(keys[0], rest);
      var s := keys[0] + ", " + rest;
      assert Join(keys) == s;
      assert s[..|keys[0]|] == keys[0];
      assert s[|keys[0]| + 2..] == rest;
      assert Split(s) == [keys[0]] + Split(rest);
      SplitJoin(keys[1..]);
      assert keys == [keys[0]] + keys[1..];
    }
  }

  /**
   * The connected-apps line names exactly the switched-on apps, in key order:
   * cutting it at ", " gives back that list, and it reads "None" only when no
   * app is on (or the one app on is itself called "None"). App names hold no
   * comma and are not empty.
   */
  lemma ConnectedAppsListsEnabled(o: BoolObject)
    requires forall i :: 0 <= i < |o| ==> ',' !in o[i].key && o[i].key != ""
    ensures ConnectedAppsText(o) == "None" <==> EnabledKeys(o) == [] || EnabledKeys(o) == ["None"]
    ensures EnabledKeys(o) != [] ==> Split(ConnectedAppsText(o)) == EnabledKeys(o)
  {
    var ks := EnabledKeys(o);
    if ks != [] {
      EnabledKeysClean(o);
      JoinSplits(ks);
    }
  }

  /** Switched-on keys come from the object, so they share its keys' properties. */
  lemma EnabledKeysClean(o: BoolObject)
    requires forall i :: 0 <= i < |o| ==> ',' !in o[i].key && o[i].key != ""
    ensures forall k :: k in EnabledKeys(o) ==> ',' !in k && k != ""
  {
    forall k | k in EnabledKeys(o) ensures ',' !in k && k != "" {
      var i :| 0 <= i < |o| && o[i].key == k && o[i].value;
    }
  }

  lemma JoinSplits(ks: seq<string>)
    requires ks != []
    requires forall k :: k in ks ==> ',' !in k && k != ""
    ensures Join(ks) == "None" <==> ks == ["None"]
    ensures Split(if Join(ks) == "" then "None" else Join(ks)) == ks
  {
    assert ks[0] in ks;
    SplitJoin(ks);
    if Join(ks) == "None" {
      FindSeparatorNone("None");
      assert Split("None") == ["None"];
    }
  }

  // ---------------------------------------------------------------- the screen

  /** What pressing "Get AI Health Insights" led to. */
  datatype SubmitOutcome = MissingInformation | InsightsShown | InsightsFailed

  /** The screen's state: the form and the three flags the component keeps beside it. */
  class SignupScreen {
    var formData: FormData
    var loading: bool
    var insights: Option<string>
    var showInsights: bool
    /** Every form that was sent off for insights, oldest first. */
    ghost var insightRequests: seq<FormData>

    constructor ()
      ensures formData == InitialForm && !loading && insights == None && !showInsights
      ensures insightRequests == []
    {
      formData := InitialForm;
      loading := false;
      insights := None;
      showInsights := false;
      insightRequests := [];
    }

    /** `toggleGoal(goal)`. */
    method ToggleGoal(goal: string)
      modifies this
      ensures formData == GoalToggled(old(formData), goal)
      ensures loading == old(loading) && insights == old(insights) && showInsights == old(showInsights)
      ensures insightRequests == old(insightRequests)
    {
      formData := GoalToggled(formData, goal);
    }

    /** `toggleIntegration(integration)`. */
    method ToggleIntegration(integration: string)
      modifies this
      ensures formData == IntegrationToggled(old(formData), integration)
      ensures loading == old(loading) && insights == old(insights) && showInsights == old(showInsights)
      ensures insightRequests == old(insightRequests)
    {
      formData := IntegrationToggled(formData, integration);
    }

    /**
     * `handleSubmit`. `response` is what the insight request resolves to;
     * None stands for a rejected request.
     */
    method HandleSubmit(response: Option<string>) returns (outcome: SubmitOutcome)
      modifies this
      ensures !HasRequiredFields(old(formData)) ==> outcome == MissingInformation && unchanged(this)
      ensures HasRequiredFields(old(formData)) ==>
        && insightRequests == old(insightRequests) + [old(formData)]
        && formData == old(formData)
        && !loading
      ensures HasRequiredFields(old(formData)) && response.Some? ==>
        outcome == InsightsShown && insights == response && showInsights
      ensures HasRequiredFields(old(formData)) && response.None? ==>
        outcome == InsightsFailed && insights == old(insights) && showInsights == old(showInsights)
    {
      if !HasRequiredFields(formData) {
        return MissingInformation;
      }
      loading := true;
      insightRequests := insightRequests + [formData];
      match response {
        case Some(text) =>
          insights := Some(text);
          showInsights := true;
          outcome := InsightsShown;
        case None =>
          outcome := InsightsFailed;
      }
      loading := false;
    }

    /** `resetForm`, behind the "Start Over" button. */
    method ResetForm()
      modifies this
      ensures formData == InitialForm && insights == None && !showInsights
      ensures loading == old(loading) && insightRequests == old(insightRequests)
    {
      formData := InitialForm;
      insights := None;
      showInsights := false;
    }
  }
}
