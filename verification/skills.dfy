/**
 The about page's skill grid: each skill's level becomes one of four
 labels by fixed thresholds, and each skill name picks a brand colour,
 with a violet default for names that have none.
 */
module Skills {
  import opened Wrappers

  datatype Label = Familiar | Intermediate | Advanced | Expert

  /** The order of the labels, lowest first. */
  function Rank(l: Label): nat {
    match l
    case Familiar => 0
    case Intermediate => 1
    case Advanced => 2
    case Expert => 3
  }

  function LabelText(l: Label): string {
    match l
    case Familiar => "Familiar"
    case Intermediate => "Intermediate"
    case Advanced => "Advanced"
    case Expert => "Expert"
  }

  /** The lowest level that earns a label; `Familiar` has no lower bound. */
  function Threshold(l: Label): real
    requires l != Familiar
  {
    match l
    case Intermediate => 60.0
    case Advanced => 80.0
    case Expert => 90.0
  }

  /** `getSkillLabel`: the first threshold, from the top, that the level reaches. */
  function SkillLabel(level: real): (l: Label)
    ensures l == Expert <==> level >= 90.0
    ensures l == Advanced <==> 80.0 <= level < 90.0
    ensures l == Intermediate <==> 60.0 <= level < 80.0
    ensures l == Familiar <==> level < 60.0
  {
    if level >= 90.0 then Expert
    else if level >= 80.0 then Advanced
    else if level >= 60.0 then Intermediate
    else Familiar
  }

  /** A level earns at least a given label exactly when it reaches that label's threshold. */
  lemma LabelAtLeast(level: real, l: Label)
    ensures Rank(SkillLabel(level)) >= Rank(l) <==> l == Familiar || level >= Threshold(l)
  {
  }

  /** Raising the level never lowers the label. */
  lemma {:induction false} LabelMonotone(a: real, b: real)
    requires a <= b
    ensures Rank(SkillLabel(a)) <= Rank(SkillLabel(b))
  {
    LabelAtLeast(a, SkillLabel(a));
    LabelAtLeast(b, SkillLabel(a));
  }

  /** The label texts are distinct, so the label shown identifies the band. */
  lemma LabelTextInjective(l: Label, m: Label)
    ensures LabelText(l) == LabelText(m) <==> l == m
  {
  }

  /** The brand colours of the listed skills, as the page's lookup table lists them. */
  const Palette: seq<(string, string)> := [
    ("React", "#61DAFB"),
    ("Vite", "#646CFF"),
    ("JavaScript", "#F7DF1E"),
    ("Tailwind CSS", "#38B2AC"),
    ("HTML/CSS", "#E34F26"),
    ("Framer Motion", "#E10098"),
    ("JavaFX", "#007396"),
    ("Node.js", "#339933"),
    ("Express.js", "#000000"),
    ("MongoDB", "#47A248"),
    ("MySQL Server", "#4479A1"),
    ("REST APIs", "#0096FF"),
    ("JWT Auth", "#D63AFF"),
    ("Zustand", "#443E38"),
    ("Java", "#ED8B00"),
    ("Python", "#3776AB"),
    ("C", "#A8B9CC"),
    ("C++", "#00599C"),
    ("Git & GitHub", "#F05032"),
    ("Jira", "#0052CC"),
    ("VS Code", "#007ACC"),
    ("Figma", "#F24E1E")
  ]

  const DefaultColor := "#8b5cf6"

  predicate IsHexDigit(c: char) {
    ('0' <= c <= '9') || ('a' <= c <= 'f') || ('A' <= c <= 'F')
  }

  /** A CSS colour of the form `#RRGGBB`. */
  predicate IsHexColor(s: string) {
    && |s| == 7 && s[0] == '#'
    && IsHexDigit(s[1]) && IsHexDigit(s[2]) && IsHexDigit(s[3])
    && IsHexDigit(s[4]) && IsHexDigit(s[5]) && IsHexDigit(s[6])
  }

  /** Every colour in the table, and the default, is a `#RRGGBB` colour. */
  lemma PaletteIsHex()
    ensures IsHexColor(DefaultColor)
    ensures forall i | 0 <= i < |Palette| :: IsHexColor(Palette[i].1)
  {
  }

  /** No skill name appears twice in the table, so a listed name has exactly one colour. */
  lemma PaletteNamesDistinct()
    ensures forall i, j | 0 <= i < j < |Palette| :: Palette[i].0 != Palette[j].0
  {
  }

  /** The first row at or after `i` whose name is `name`, as `colors[name]` finds it. */
  function LookupFrom(table: seq<(string, string)>, name: string, i: nat): (r: Option<nat>)
    requires i <= |table|
    ensures r.Some? ==> i <= r.value < |table| && table[r.value].0 == name
    ensures r.Some? ==> forall j | i <= j < r.value :: table[j].0 != name
    ensures r.None? <==> forall j | i <= j < |table| :: table[j].0 != name
    decreases |table| - i
  {
    if i == |table| then None
    else if table[i].0 == name then Some(i)
    else LookupFrom(table, name, i + 1)
  }

  /** `getColor`: `colors[name] || '#8b5cf6'`. */
  function GetColor(name: string): (c: string)
    ensures IsHexColor(c)
    ensures forall i | 0 <= i < |Palette| && Palette[i].0 == name :: c == Palette[i].1
    ensures (forall i | 0 <= i < |Palette| :: Palette[i].0 != name) ==> c == DefaultColor
  {
    PaletteIsHex();
    PaletteNamesDistinct();
    match LookupFrom(Palette, name, 0)
    case Some(k) => if Palette[k].1 != "" then Palette[k].1 else DefaultColor
    case None => DefaultColor
  }

  /** A listed name gets its own brand colour; an unlisted one the default violet. */
  lemma GetColorExamples()
    ensures GetColor("React") == "#61DAFB"
    ensures GetColor("Rust") == DefaultColor
  {
    assert Palette[0] == ("React", "#61DAFB");
    assert forall i | 0 <= i < |Palette| :: Palette[i].0 != "Rust";
  }

  datatype Group = Frontend | BackendGroup | Tools | OtherGroup

  datatype Skill = Skill(name: string, group: Group, level: real)

  /** The skills the page lists, in order. */
  const SkillList := [
    Skill("React", Frontend, 90.0),
    Skill("Vite", Frontend, 85.0),
    Skill("JavaScript", Frontend, 90.0),
    Skill("HTML/CSS", Frontend, 95.0),
    Skill("Tailwind CSS", Frontend, 95.0),
    Skill("Framer Motion", Frontend, 75.0),
    Skill("JavaFX", Frontend, 80.0),
    Skill("Node.js", BackendGroup, 80.0),
    Skill("Express.js", BackendGroup, 80.0),
    Skill("MongoDB", BackendGroup, 75.0),
    Skill("MySQL Server", BackendGroup, 75.0),
    Skill("REST APIs", BackendGroup, 85.0),
    Skill("JWT Auth", BackendGroup, 80.0),
    Skill("Zustand", BackendGroup, 70.0),
    Skill("C", Tools, 85.0),
    Skill("C++", Tools, 80.0),
    Skill("Java", Tools, 80.0),
    Skill("Python", Tools, 75.0),
    Skill("Git & GitHub", Tools, 85.0),
    Skill("Jira", Tools, 70.0),
    Skill("VS Code", Tools, 95.0),
    Skill("Figma", Tools, 60.0)
  ]

  /** Every listed skill is labelled at least "Intermediate". */
  lemma ListedSkillsAreCovered()
    ensures forall i | 0 <= i < |SkillList| :: Rank(SkillLabel(SkillList[i].level)) >= Rank(Intermediate)
  {
  }
}
