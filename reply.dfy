/** The rule-based reply generator of the chat endpoint (`generateReply`,
    server.js lines 100-122): an empathy opening, advice chosen by keywords,
    and a fixed closing sentence. */
module Reply {
  import opened Text

  /** The keyword groups, in the order in which they are tried. */
  datatype Topic = Anxiety | LowMood | Sleep | Stress | General

  const AnxietyWords: seq<string> := ["anx", "nerv", "worri"]
  const LowMoodWords: seq<string> := ["depress", "sad", "hopeless"]
  const SleepWords: seq<string> := ["sleep", "insomnia"]
  const StressWords: seq<string> := ["stres", "overwhelm"]

  /** Some keyword of `words` occurs somewhere in `text`. */
  ghost predicate Mentions(text: string, words: seq<string>) {
    exists k, i :: 0 <= k < |words| && OccursAt(text, words[k], i)
  }

  /** The keyword conditions of `generateReply`, tried on the lower-cased
      message: the first group that matches wins. */
  function Classify(message: string): (t: Topic)
    ensures var m := Lower(message);
      && (t == Anxiety <==> Mentions(m, AnxietyWords))
      && (t == LowMood <==> !Mentions(m, AnxietyWords) && Mentions(m, LowMoodWords))
      && (t == Sleep <==> !Mentions(m, AnxietyWords) && !Mentions(m, LowMoodWords)
                          && Mentions(m, SleepWords))
      && (t == Stress <==> !Mentions(m, AnxietyWords) && !Mentions(m, LowMoodWords)
                           && !Mentions(m, SleepWords) && Mentions(m, StressWords))
      && (t == General <==> !Mentions(m, AnxietyWords) && !Mentions(m, LowMoodWords)
                            && !Mentions(m, SleepWords) && !Mentions(m, StressWords))
  {
    var m := Lower(message);
    MentionsThree(m, AnxietyWords);
    MentionsThree(m, LowMoodWords);
    MentionsTwo(m, SleepWords);
    MentionsTwo(m, StressWords);
    if Includes(m, "anx") || Includes(m, "nerv") || Includes(m, "worri") then Anxiety
    else if Includes(m, "depress") || Includes(m, "sad") || Includes(m, "hopeless") then LowMood
    else if Includes(m, "sleep") || Includes(m, "insomnia") then Sleep
    else if Includes(m, "stres") || Includes(m, "overwhelm") then Stress
    else General
  }

  lemma MentionsThree(m: string, words: seq<string>)
    requires |words| == 3
    ensures Mentions(m, words) <==>
      Includes(m, words[0]) || Includes(m, words[1]) || Includes(m, words[2])
  {
    if Mentions(m, words) {
      var k, i :| 0 <= k < |words| && OccursAt(m, words[k], i);
      assert Includes(m, words[k]);
    }
  }

  lemma MentionsTwo(m: string, words: seq<string>)
    requires |words| == 2
    ensures Mentions(m, words) <==> Includes(m, words[0]) || Includes(m, words[1])
  {
    if Mentions(m, words) {
      var k, i :| 0 <= k < |words| && OccursAt(m, words[k], i);
      assert Includes(m, words[k]);
    }
  }

  /** The three openings, one of which is picked at random. The second is kept
      exactly as the source file spells it (its dash is an encoding artefact). */
  const Empathy: seq<string> := [
    "I'm sorry you're feeling this way. ",
    "That sounds really tough \U{E2}\U{20AC}\U{201D} thank you for sharing. ",
    "I hear you. It can be overwhelming. "
  ]

  const AnxietyAdvice := "It sounds like anxiety is coming up. Try grounding: name 5 things you can see, 4 you can touch, 3 you can hear, 2 you can smell, and 1 you can taste. Small steps can help."
  const LowMoodAdvice := "I'm sorry you're feeling low. Have you tried connecting with someone you trust about this? If things feel very heavy, reaching out to a professional or a crisis hotline can really help."
  const SleepAdvice := "Sleep issues are common during stress. A short wind-down routine (no screens, light reading, calm breathing) can help reset your sleep cycle."
  const StressAdvice := "When stress piles up, try breaking tasks into tiny steps and prioritizing. Even tiny progress is progress."
  const GeneralAdvice := "Can you tell me a bit more about what's happening? If you're in immediate danger or feel you might harm yourself, please contact your local emergency services or a crisis helpline right away."
  const Closing := " If you'd like, I can suggest grounding exercises, short journaling prompts, or NGOs/university counselling resources."

  /** The advice text of each keyword group. */
  function Advice(t: Topic): (advice: string) {
    match t
    case Anxiety => AnxietyAdvice
    case LowMood => LowMoodAdvice
    case Sleep => SleepAdvice
    case Stress => StressAdvice
    case General => GeneralAdvice
  }

  /** The five advice texts are distinct (their lengths differ), so the advice
      in a reply tells which keyword group was chosen. */
  lemma AdviceTellsTopic(t1: Topic, t2: Topic)
    ensures Advice(t1) == Advice(t2) <==> t1 == t2
  {
    assert |AnxietyAdvice| == 171 && |LowMoodAdvice| == 185 && |SleepAdvice| == 141;
    assert |StressAdvice| == 106 && |GeneralAdvice| == 191;
    if t1 != t2 {
      assert |Advice(t1)| != |Advice(t2)|;
    }
  }

  /** `generateReply(message)`, building the reply step by step as the source
      does; `pick` stands for `Math.floor(Math.random() * 3)`. */
  method GenerateReply(message: string, pick: nat) returns (reply: string)
    requires pick < |Empathy|
    ensures reply == Empathy[pick] + Advice(Classify(message)) + Closing
  {
    var m := Lower(message);
    reply := Empathy[pick];
    if Includes(m, "anx") || Includes(m, "nerv") || Includes(m, "worri") {
      reply := reply + AnxietyAdvice;
    } else if Includes(m, "depress") || Includes(m, "sad") || Includes(m, "hopeless") {
      reply := reply + LowMoodAdvice;
    } else if Includes(m, "sleep") || Includes(m, "insomnia") {
      reply := reply + SleepAdvice;
    } else if Includes(m, "stres") || Includes(m, "overwhelm") {
      reply := reply + StressAdvice;
    } else {
      reply := reply + GeneralAdvice;
    }
    reply := reply + Closing;
  }

  /** Keywords are matched regardless of letter case: messages that agree up
      to case get the same advice. */
  lemma ClassifyIgnoresCase(m1: string, m2: string)
    requires |m1| == |m2|
    requires forall k :: 0 <= k < |m1| ==> LowerChar(m1[k]) == LowerChar(m2[k])
    ensures Classify(m1) == Classify(m2)
  {
    assert Lower(m1) == Lower(m2);
  }

  /** An upper-case keyword is found: "I feel ANXIOUS" gets the anxiety advice. */
  lemma UpperCaseKeyword()
    ensures Classify("I feel ANXIOUS") == Anxiety
  {
    var m := Lower("I feel ANXIOUS");
    assert m[7..10] == "anx";
    assert OccursAt(m, AnxietyWords[0], 7);
  }
}
