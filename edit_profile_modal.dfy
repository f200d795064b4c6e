/** The profile edit form: the initial form built from the profile, the field update,
    and the request payload, whose skills string is split back into a list. */
module EditProfileModal {
  import opened Optional
  import opened Strings
  import Lists

  /** A form value: an input's text, a checkbox's state, or the parsed skills list. */
  datatype FormValue = Text(text: string) | Flag(on: bool) | List(items: seq<string>)

  /** The profile fields the form starts from; an absent profile has every field `None`. */
  datatype Profile = Profile(headline: Option<string>, location: Option<string>,
                             about: Option<string>, skills: Option<seq<string>>,
                             openToWork: Option<bool>, openToCompete: Option<bool>)

  /** The answer to the update request. */
  datatype Response = Response(ok: bool, message: Option<string>)

  /** What the submit leads to: nothing sent, the profile updated, an alert shown, or
      a network error that is only logged. */
  datatype Outcome = NotSent | Updated | Alerted(text: string) | NetworkError

  const FieldNames: set<string> := {"headline", "location", "about", "skills", "openToWork", "openToCompete"}

  /** `skills ? skills.join(", ") : ""`. */
  function SkillsText(skills: Option<seq<string>>): (r: string)
    ensures skills.None? ==> r == ""
    ensures skills.Some? && |skills.value| == 1 ==> r == skills.value[0]
  {
    if skills.Some? then Join(skills.value, ", ") else ""
  }

  /** The form's first state: every text field defaults to `""`, every flag to `false`. */
  function InitialForm(p: Profile): (form: map<string, FormValue>)
    ensures form.Keys == FieldNames
    ensures form["headline"] == Text(p.headline.GetOr(""))
    ensures form["location"] == Text(p.location.GetOr(""))
    ensures form["about"] == Text(p.about.GetOr(""))
    ensures form["skills"] == Text(SkillsText(p.skills))
    ensures form["openToWork"] == Flag(p.openToWork.GetOr(false))
    ensures form["openToCompete"] == Flag(p.openToCompete.GetOr(false))
  {
    map["headline" := Text(p.headline.GetOr("")),
        "location" := Text(p.location.GetOr("")),
        "about" := Text(p.about.GetOr("")),
        "skills" := Text(SkillsText(p.skills)),
        "openToWork" := Flag(p.openToWork.GetOr(false)),
        "openToCompete" := Flag(p.openToCompete.GetOr(false))]
  }

  /** `pieces.map(s => s.trim())`. */
  function TrimAll(pieces: seq<string>): (r: seq<string>)
    ensures |r| == |pieces|
    ensures forall i :: 0 <= i < |r| ==> r[i] == Trim(pieces[i])
  {
    Lists.Map(Trim, pieces)
  }

  /** `pieces.filter(s => s)`: the non-empty ones, in order. */
  function NonEmpty(pieces: seq<string>): (r: seq<string>)
    ensures |r| <= |pieces|
    ensures forall i :: 0 <= i < |r| ==> r[i] != [] && r[i] in pieces
    ensures forall i :: 0 <= i < |pieces| && pieces[i] != [] ==> pieces[i] in r
  {
    if pieces == [] then []
    else if pieces[0] == [] then NonEmpty(pieces[1..])
    else [pieces[0]] + NonEmpty(pieces[1..])
  }

  /** The filter keeps order: filtering two lists one after the other is filtering each. */
  lemma {:induction false} NonEmptyAppend(a: seq<string>, b: seq<string>)
    ensures NonEmpty(a + b) == NonEmpty(a) + NonEmpty(b)
  {
    if a == [] {
      assert a + b == b;
    } else {
      assert (a + b)[0] == a[0];
      assert (a + b)[1..] == a[1..] + b;
      NonEmptyAppend(a[1..], b);
    }
  }

  /** The filter on one piece: kept exactly when it is non-empty. */
  lemma NonEmptySingle(x: string)
    ensures NonEmpty([x]) == if x == [] then [] else [x]
  {
    assert [x][1..] == [];
  }

  /** A skill that survives the round trip through the text field. */
  predicate GoodSkill(s: string) {
    s != [] && Trimmed(s) && ',' !in s
  }

  /** `text.split(',').map(s => s.trim()).filter(s => s)`: every skill it yields is
      non-empty, trimmed and free of commas. */
  function ParseSkills(text: string): (skills: seq<string>)
    ensures forall i :: 0 <= i < |skills| ==> GoodSkill(skills[i])
  {
    var pieces := Split(text, ',');
    var trimmed := TrimAll(pieces);
    forall i | 0 <= i < |trimmed|
      ensures ',' !in trimmed[i]
    {
      TrimInside(pieces[i], ',');
    }
    NonEmpty(trimmed)
  }

  /** Text with a comma in it parses as the text before the comma, then the text after
      it: the skills keep the order they are typed in. */
  lemma ParseSkillsAppend(a: string, b: string)
    ensures ParseSkills(a + [','] + b) == ParseSkills(a) + ParseSkills(b)
  {
    SplitAppend(a, ',', b);
    Lists.MapAppend(Trim, Split(a, ','), Split(b, ','));
    NonEmptyAppend(TrimAll(Split(a, ',')), TrimAll(Split(b, ',')));
  }

  /** Text without a comma is one skill, trimmed, or none when it is blank. */
  lemma ParseSkillsPiece(a: string)
    requires ',' !in a
    ensures ParseSkills(a) == if Trim(a) == [] then [] else [Trim(a)]
  {
    SplitWithoutSeparator(a, ',');
    assert TrimAll([a]) == [Trim(a)];
    NonEmptySingle(Trim(a));
  }

  /** A character that is not in `s` is not in its trim either. */
  lemma TrimInside(s: string, c: char)
    requires c !in s
    ensures c !in Trim(s)
  {
  }

  /** A leading space, or none, is trimmed off a trimmed skill. */
  lemma TrimLead(lead: string, s0: string)
    requires lead == "" || lead == " "
    requires Trimmed(s0)
    ensures Trim(lead + s0) == s0
  {
    if lead == " " {
      TrimSkipsLeadingSpace(' ', s0);
      assert [' '] + s0 == lead + s0;
    } else {
      assert lead + s0 == s0;
    }
    TrimOfTrimmed(s0);
  }

  /** Trimming and filtering a list whose head trims to a non-empty string keeps that
      string first. */
  lemma ParseCons(head: string, s0: string, pieces: seq<string>)
    requires Trim(head) == s0 && s0 != []
    ensures NonEmpty(TrimAll([head] + pieces)) == [s0] + NonEmpty(TrimAll(pieces))
  {
    TrimAllCons(head, pieces);
    NonEmptyCons(s0, TrimAll(pieces));
  }

  lemma TrimAllCons(head: string, pieces: seq<string>)
    ensures TrimAll([head] + pieces) == [Trim(head)] + TrimAll(pieces)
  {
    Lists.MapCons(Trim, head, pieces);
  }

  lemma NonEmptyCons(x: string, rest: seq<string>)
    requires x != []
    ensures NonEmpty([x] + rest) == [x] + NonEmpty(rest)
  {
    assert ([x] + rest)[1..] == rest;
  }

  /** A single skill splits back into itself. */
  lemma ParseSingle(lead: string, s0: string)
    requires ',' !in lead + s0
    requires Trim(lead + s0) == s0 && s0 != []
    ensures NonEmpty(TrimAll(Split(lead + Join([s0], ", "), ','))) == [s0]
  {
    SplitWithoutSeparator(lead + s0, ',');
    ParseCons(lead + s0, s0, []);
    assert [lead + s0] + [] == [lead + s0];
  }

  /** Regrouping of the text in front of the remaining skills. */
  lemma JoinedShape(lead: string, s0: string, joined: string)
    ensures lead + (s0 + ", " + joined) == (lead + s0) + [','] + (" " + joined)
  {
    var l := lead + (s0 + ", " + joined);
    var r := (lead + s0) + [','] + (" " + joined);
    assert |l| == |r|;
    forall i | 0 <= i < |l|
      ensures l[i] == r[i]
    {
      if i == |lead| + |s0| {
        assert l[i] == ',';
      }
    }
  }

  /** One step of the split: the first skill, then the rest behind a space. */
  lemma ParseStep(lead: string, skills: seq<string>)
    requires |skills| >= 2 && ',' !in lead + skills[0]
    requires Trim(lead + skills[0]) == skills[0] && skills[0] != []
    ensures NonEmpty(TrimAll(Split(lead + Join(skills, ", "), ',')))
         == [skills[0]] + NonEmpty(TrimAll(Split(" " + Join(skills[1..], ", "), ',')))
  {
    var s0 := skills[0];
    var joined := Join(skills[1..], ", ");
    var tail := " " + joined;
    assert Join(skills, ", ") == s0 + ", " + joined;
    JoinedShape(lead, s0, joined);
    SplitAfterPiece(lead + s0, ',', tail);
    ParseCons(lead + s0, s0, Split(tail, ','));
  }

  lemma HeadAndTail<T>(s: seq<T>)
    requires s != []
    ensures [s[0]] + s[1..] == s
  {
  }

  /** The skills written with `", "` between them and an optional leading space split
      back into the same skills. */
  lemma {:induction false} ParseJoined(skills: seq<string>, lead: string)
    requires lead == "" || lead == " "
    requires |skills| >= 1
    requires forall i :: 0 <= i < |skills| ==> GoodSkill(skills[i])
    ensures NonEmpty(TrimAll(Split(lead + Join(skills, ", "), ','))) == skills
  {
    var s0 := skills[0];
    assert GoodSkill(s0);
    assert ',' !in lead;
    TrimLead(lead, s0);
    if |skills| == 1 {
      ParseSingle(lead, s0);
    } else {
      var rest := skills[1..];
      forall i | 0 <= i < |rest|
        ensures GoodSkill(rest[i])
      {
        assert rest[i] == skills[i + 1];
      }
      ParseStep(lead, skills);
      ParseJoined(rest, " ");
      HeadAndTail(skills);
    }
  }

  /** The form's skills text, left unedited, submits the profile's own skills, provided
      each one is non-empty, trimmed and comma-free. */
  lemma ParseSkillsRoundTrip(skills: seq<string>)
    requires forall i :: 0 <= i < |skills| ==> GoodSkill(skills[i])
    ensures ParseSkills(SkillsText(Some(skills))) == skills
  {
    if skills == [] {
      assert Split("", ',') == [""];
      assert Trim("") == "";
    } else {
      ParseJoined(skills, "");
      assert "" + Join(skills, ", ") == Join(skills, ", ");
    }
  }

  /** Overwriting a key that is present keeps the key set and every other entry. */
  lemma UpdateExisting<K, V>(m: map<K, V>, key: K, v: V)
    requires key in m
    ensures m[key := v].Keys == m.Keys
    ensures forall k :: k in m && k != key ==> m[key := v][k] == m[k]
  {
  }

  /** The request body: the form with its skills replaced by the parsed list, or `None`
      when the skills value is not text (the `split` call throws and the submit stops). */
  function Payload(form: map<string, FormValue>): (body: Option<map<string, FormValue>>)
    ensures body.Some? <==> "skills" in form && form["skills"].Text?
  {
    if "skills" in form && form["skills"].Text? then
      Some(WithSkills(form, ParseSkills(form["skills"].text)))
    else None
  }

  /** The form with the skills field holding a list: no field is added or dropped and
      every other field is untouched. */
  function WithSkills(form: map<string, FormValue>, skills: seq<string>): (r: map<string, FormValue>)
    requires "skills" in form
    ensures r.Keys == form.Keys
    ensures r["skills"] == List(skills)
    ensures forall k :: k in form && k != "skills" ==> r[k] == form[k]
  {
    UpdateExisting(form, "skills", List(skills));
    form["skills" := List(skills)]
  }

  /** A body that is sent has the form's fields, the skills as a parsed list and every
      other field as the form holds it. */
  lemma PayloadFields(form: map<string, FormValue>)
    requires "skills" in form && form["skills"].Text?
    ensures Payload(form).Some?
    ensures Payload(form).value.Keys == form.Keys
    ensures Payload(form).value["skills"] == List(ParseSkills(form["skills"].text))
    ensures forall k :: k in form && k != "skills" ==> Payload(form).value[k] == form[k]
  {
    var parsed := ParseSkills(form["skills"].text);
    assert Payload(form).value == WithSkills(form, parsed);
  }

  /** Submitting the form as first built sends the profile's own skills back (none
      when the profile has none), provided each is non-empty, trimmed and comma-free. */
  lemma InitialPayloadSkills(p: Profile)
    requires p.skills.Some? ==> forall i :: 0 <= i < |p.skills.value| ==> GoodSkill(p.skills.value[i])
    ensures Payload(InitialForm(p)).Some?
    ensures Payload(InitialForm(p)).value["skills"] == List(if p.skills.Some? then p.skills.value else [])
  {
    var form := InitialForm(p);
    PayloadFields(form);
    if p.skills.Some? {
      ParseSkillsRoundTrip(p.skills.value);
    } else {
      ParseSkillsRoundTrip([]);
    }
  }

  /** The modal's form state. */
  class EditProfileState {
    var formData: map<string, FormValue>
    var loading: bool

    constructor (p: Profile)
      ensures formData == InitialForm(p) && !loading
    {
      formData := InitialForm(p);
      loading := false;
    }

    /** `handleChange`: a checkbox sets its flag, any other input its text; only the
        named field changes. */
    method HandleChange(name: string, value: string, isCheckbox: bool, checked: bool)
      modifies this
      ensures formData == old(formData)[name := if isCheckbox then Flag(checked) else Text(value)]
      ensures loading == old(loading)
    {
      formData := formData[name := if isCheckbox then Flag(checked) else Text(value)];
    }

    /** `handleSubmit`: sends the payload and reports the answer (`None` is a network
        error); the failure alert falls back to "Unknown error" when the answer has no
        message. The loading flag ends cleared. */
    method HandleSubmit(response: Option<Response>) returns (request: Option<map<string, FormValue>>, outcome: Outcome)
      modifies this
      ensures request == Payload(old(formData))
      ensures formData == old(formData) && !loading
      ensures request.None? ==> outcome == NotSent
      ensures request.Some? && response.None? ==> outcome == NetworkError
      ensures request.Some? && response.Some? && response.value.ok ==> outcome == Updated
      ensures request.Some? && response.Some? && !response.value.ok ==>
        outcome == Alerted("Failed to update: " +
          (if response.value.message.Some? && response.value.message.value != ""
           then response.value.message.value else "Unknown error"))
    {
      loading := true;
      request := Payload(formData);
      if request.None? {
        outcome := NotSent;
      } else if response.None? {
        outcome := NetworkError;
      } else if response.value.ok {
        outcome := Updated;
      } else {
        var message := response.value.message;
        var shown := if message.Some? && message.value != "" then message.value else "Unknown error";
        outcome := Alerted("Failed to update: " + shown);
      }
      loading := false;
    }
  }
}
