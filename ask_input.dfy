/**
 * The floating "ask" input of the home page: a canned answer chosen by keywords of the
 * lower-cased query, a panel showing it until dismissed, and the rule that hides the whole
 * input while the page footer is in (or close to) view.
 */
module AskInput {
  import opened Wrappers
  import opened Text

  /** Which canned answer a query gets. */
  datatype Topic = Projects | Skills | Studies | Experience | General

  const ProjectsAnswer: string :=
    "Youssef has worked on several projects including NLP Phishing Detection, GeeGee's Intramural website, and a Distributed File Storage System."
  const SkillsAnswer: string :=
    "Youssef's skills include Python, Java, Go, Rust, C/C++, JavaScript/TypeScript, and various frameworks like React, Node.js, and TensorFlow."
  const StudiesAnswer: string :=
    "Youssef studied at the University of Ottawa, completing a Bachelor of Applied Science in Software Engineering and is currently pursuing a Masters in Computer Science."
  const ExperienceAnswer: string :=
    "Youssef has worked as an AI Researcher at the National Research Council, a Junior Software Engineer at Wind River Systems, and a Software Developer at the University of Ottawa."
  const DefaultAnswer: string :=
    "Youssef is a software engineer and AI researcher with a passion for creating elegant, efficient solutions to complex problems."

  /** The answer sentence of each topic; all five are distinct and non-empty. */
  function AnswerText(t: Topic): (r: string)
    ensures r != ""
  {
    match t
    case Projects => ProjectsAnswer
    case Skills => SkillsAnswer
    case Studies => StudiesAnswer
    case Experience => ExperienceAnswer
    case General => DefaultAnswer
  }

  /** Different topics give different answers. */
  lemma AnswersDistinct(t: Topic, u: Topic)
    requires t != u
    ensures AnswerText(t) != AnswerText(u)
  {
    assert |ProjectsAnswer| == 140 && |SkillsAnswer| == 138 && |StudiesAnswer| == 166;
    assert |ExperienceAnswer| == 176 && |DefaultAnswer| == 126;
  }

  /** The `if`/`else if` chain of the submit handler, on `query.toLowerCase()`. */
  function Route(query: string): Topic {
    var q := Lower(query);
    if Contains(q, "project") then Projects
    else if Contains(q, "skill") then Skills
    else if Contains(q, "study") || Contains(q, "education") then Studies
    else if Contains(q, "experience") || Contains(q, "work") then Experience
    else General
  }

  /** The response the submit handler sets for `query`. */
  function ChooseResponse(query: string): (r: string)
    ensures r != ""
  {
    AnswerText(Route(query))
  }

  /** An independent statement of the router: an ordered table of keyword rules; the first rule one of whose keywords occurs wins. */
  datatype Rule = Rule(keywords: seq<string>, topic: Topic)

  const RouteTable: seq<Rule> := [
    Rule(["project"], Projects),
    Rule(["skill"], Skills),
    Rule(["study", "education"], Studies),
    Rule(["experience", "work"], Experience)
  ]

  predicate AnyKeyword(q: string, keywords: seq<string>) {
    exists k :: 0 <= k < |keywords| && Contains(q, keywords[k])
  }

  /** The topic of the first rule that fires on `q`, or `General` when none does. */
  function FirstMatching(rules: seq<Rule>, q: string): (t: Topic)
    ensures t == General || exists i :: 0 <= i < |rules| && rules[i].topic == t
  {
    if rules == [] then General
    else if AnyKeyword(q, rules[0].keywords) then rules[0].topic
    else FirstMatching(rules[1..], q)
  }

  /** `FirstMatching` picks the earliest rule that fires, and `General` exactly when none fires. */
  lemma {:induction false} FirstMatchingIsFirst(rules: seq<Rule>, q: string, i: nat)
    requires i <= |rules|
    requires forall j :: 0 <= j < i ==> !AnyKeyword(q, rules[j].keywords)
    requires i < |rules| ==> AnyKeyword(q, rules[i].keywords)
    ensures FirstMatching(rules, q) == if i < |rules| then rules[i].topic else General
    decreases i
  {
    if i > 0 {
      assert !AnyKeyword(q, rules[0].keywords);
      FirstMatchingIsFirst(rules[1..], q, i - 1);
    }
  }

  /** The `if`/`else if` chain is the rule table read top to bottom. */
  lemma RouteIsFirstMatchingRule(query: string)
    ensures Route(query) == FirstMatching(RouteTable, Lower(query))
  {
    var q := Lower(query);
    var r := RouteTable;
    assert AnyKeyword(q, r[0].keywords) <==> Contains(q, "project") by {
      assert r[0].keywords[0] == "project";
    }
    assert AnyKeyword(q, r[1].keywords) <==> Contains(q, "skill") by {
      assert r[1].keywords[0] == "skill";
    }
    assert AnyKeyword(q, r[2].keywords) <==> Contains(q, "study") || Contains(q, "education") by {
      assert r[2].keywords[0] == "study" && r[2].keywords[1] == "education";
    }
    assert AnyKeyword(q, r[3].keywords) <==> Contains(q, "experience") || Contains(q, "work") by {
      assert r[3].keywords[0] == "experience" && r[3].keywords[1] == "work";
    }
    if Contains(q, "project") {
      FirstMatchingIsFirst(r, q, 0);
    } else if Contains(q, "skill") {
      FirstMatchingIsFirst(r, q, 1);
    } else if Contains(q, "study") || Contains(q, "education") {
      FirstMatchingIsFirst(r, q, 2);
    } else if Contains(q, "experience") || Contains(q, "work") {
      FirstMatchingIsFirst(r, q, 3);
    } else {
      FirstMatchingIsFirst(r, q, 4);
    }
  }

  /** Each topic is chosen exactly when its keywords occur in the lower-cased query and no higher rule's do. */
  lemma RouteIff(query: string)
    ensures var q := Lower(query);
            && (Route(query) == Projects <==> Contains(q, "project"))
            && (Route(query) == Skills <==> !Contains(q, "project") && Contains(q, "skill"))
            && (Route(query) == Studies <==>
                  !Contains(q, "project") && !Contains(q, "skill")
                  && (Contains(q, "study") || Contains(q, "education")))
            && (Route(query) == Experience <==>
                  !Contains(q, "project") && !Contains(q, "skill")
                  && !Contains(q, "study") && !Contains(q, "education")
                  && (Contains(q, "experience") || Contains(q, "work")))
            && (Route(query) == General <==>
                  !Contains(q, "project") && !Contains(q, "skill")
                  && !Contains(q, "study") && !Contains(q, "education")
                  && !Contains(q, "experience") && !Contains(q, "work"))
  {
  }

  /** Lower-casing a piece of a string is the same piece of the lower-cased string. */
  lemma LowerSlice(s: string, i: nat, j: nat)
    requires i <= j <= |s|
    ensures Lower(s)[i..j] == Lower(s[i..j])
  {
  }

  /**
   * Case does not matter: if some piece of the query lower-cases to a keyword, the
   * lower-cased query contains that keyword.
   */
  lemma KeywordInAnyCase(query: string, keyword: string, i: nat)
    requires i + |keyword| <= |query| && Lower(query[i..i + |keyword|]) == keyword
    ensures Contains(Lower(query), keyword)
  {
    LowerSlice(query, i, i + |keyword|);
    assert OccursAt(Lower(query), keyword, i);
    ContainsIff(Lower(query), keyword);
  }

  /** A query with "project" in any letter case gets the projects answer, whatever else it says. */
  lemma ProjectAlwaysWins(query: string, i: nat)
    requires i + 7 <= |query| && Lower(query[i..i + 7]) == "project"
    ensures Route(query) == Projects
    ensures ChooseResponse(query) == ProjectsAnswer
  {
    KeywordInAnyCase(query, "project", i);
  }

  /** The router only sees the lower-cased query: routing it again after lower-casing changes nothing. */
  lemma RouteIgnoresCase(query: string)
    ensures Route(Lower(query)) == Route(query)
    ensures ChooseResponse(Lower(query)) == ChooseResponse(query)
  {
    LowerIdempotent(query);
  }

  /** An example: an upper-case keyword still selects the skills answer. */
  lemma UpperCaseSkillsExample()
    ensures ChooseResponse("SKILL") == SkillsAnswer
  {
    var q := Lower("SKILL");
    assert q == "skill";
    assert OccursAt(q, "skill", 0);
    ContainsIff(q, "skill");
  }

  /** How far above the bottom of the window the footer's top may be before the input hides. */
  const FooterMargin: real := 100.0

  /** The footer is visible or close to being visible. */
  predicate FooterNear(footerTop: real, windowHeight: real) {
    footerTop < windowHeight + FooterMargin
  }

  /** Scrolling further down (the footer's top moving up) never brings the input back. */
  lemma FooterNearMonotone(top: real, lower: real, windowHeight: real)
    requires lower <= top && FooterNear(top, windowHeight)
    ensures FooterNear(lower, windowHeight)
  {
  }

  /** What the component renders. */
  datatype View = Hidden | Shown(panel: Option<string>)

  /** The component's two pieces of state. */
  class AskInputState {
    var response: Option<string>
    var isVisible: bool

    /** Initially no response, and the input is shown. */
    constructor ()
      ensures response == None && isVisible
    {
      response := None;
      isVisible := true;
    }

    /** Nothing when hidden; otherwise the input, with a response panel when `response` is a non-empty string. */
    function Render(): (v: View)
      reads this
      ensures !isVisible <==> v == Hidden
      ensures v.Shown? ==> (v.panel.Some? <==> response.Some? && response.value != "")
      ensures v.Shown? && v.panel.Some? ==> v.panel == response
    {
      if !isVisible then Hidden
      else if response.Some? && response.value != "" then Shown(response)
      else Shown(None)
    }

    /** The submit handler, when its timer fires: the chosen answer becomes the response. */
    method Submit(query: string)
      modifies this
      ensures response == Some(ChooseResponse(query))
      ensures isVisible == old(isVisible)
      ensures isVisible ==> Render() == Shown(Some(ChooseResponse(query)))
    {
      response := Some(ChooseResponse(query));
    }

    /** The scroll handler: with a footer on the page, hide the input iff the footer is near; without one, change nothing. */
    method CheckFooterVisibility(footerTop: Option<real>, windowHeight: real)
      modifies this
      ensures footerTop.None? ==> isVisible == old(isVisible)
      ensures footerTop.Some? ==> (isVisible <==> !FooterNear(footerTop.value, windowHeight))
      ensures response == old(response)
    {
      if footerTop.Some? {
        if FooterNear(footerTop.value, windowHeight) {
          isVisible := false;
        } else {
          isVisible := true;
        }
      }
    }

    /** The dismiss button: the response is cleared and its panel disappears. */
    method Dismiss()
      modifies this
      ensures response == None
      ensures isVisible == old(isVisible)
      ensures Render() == if isVisible then Shown(None) else Hidden
    {
      response := None;
    }
  }
}
