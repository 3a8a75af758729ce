/**
 * The form checks of js/formValidation.js: a form groups its controls by type,
 * `validate` runs one rule per control type and puts one error message after
 * every control that fails, and the subscription box checks an email address.
 *
 * A control is its `type`, its `value` and, for file inputs, how many files are
 * chosen. Error messages stand for the `.error-message` nodes the form shows.
 * The two regular expressions are written as string predicates, each proved
 * equal to a direct reading of its pattern.
 */
module FormValidation {
  import opened Wrappers
  import opened Strings

  // ---------------------------------------------------------------------------
  // Controls and messages

  /**
   * A control's `type` attribute: one constructor per type `validate` has a
   * rule for, and `Other` for every other type (password, checkbox, ...).
   */
  datatype Kind = Email | Text | Textarea | Tel | Date | File | SelectOne | Other(typeName: string)

  /** The `type` string of each kind. */
  function TypeName(k: Kind): string {
    match k
    case Email => "email"
    case Text => "text"
    case Textarea => "textarea"
    case Tel => "tel"
    case Date => "date"
    case File => "file"
    case SelectOne => "select-one"
    case Other(t) => t
  }

  /** The kind of a `type` string; types without a rule become `Other`. */
  function KindOf(typeName: string): (k: Kind)
    ensures k.Other? ==> k.typeName == typeName
  {
    if typeName == "email" then Email
    else if typeName == "text" then Text
    else if typeName == "textarea" then Textarea
    else if typeName == "tel" then Tel
    else if typeName == "date" then Date
    else if typeName == "file" then File
    else if typeName == "select-one" then SelectOne
    else Other(typeName)
  }

  /**
   * A kind some `type` string reads as: `Other` never carries the name of a type
   * that has a rule. A control's kind is always `KindOf(input.type)`.
   */
  predicate Canonical(k: Kind) {
    KindOf(TypeName(k)) == k
  }

  /** Reading a `type` string as a kind loses nothing, and gives a canonical kind. */
  lemma KindOfTypeName(typeName: string, k: Kind)
    ensures TypeName(KindOf(typeName)) == typeName
    ensures Canonical(KindOf(typeName))
    ensures Canonical(k) <==> !k.Other? || KindOf(k.typeName).Other?
  {
  }

  /**
   * A form control: `input.type`, `input.value` and `input.files.length`. Its kind
   * is always `KindOf(input.type)`, so it is canonical (KindOfTypeName): a control
   * of type "email" has kind `Email`, never `Other("email")`.
   */
  datatype Input = Input(kind: Kind, value: string, fileCount: nat)

  /** The messages `validate` can show. */
  datatype Message = InvalidEmail | TooShort | InvalidPhone | NoDate | NoFile | NoOption

  /** The text of each message. */
  function MessageText(m: Message): string {
    match m
    case InvalidEmail => "Please enter a valid email address."
    case TooShort => "Text must be at least 2 characters long."
    case InvalidPhone => "Please enter a valid phone number (7-15 digits, optional +)."
    case NoDate => "Please select a valid date."
    case NoFile => "Please upload a file."
    case NoOption => "Please select a valid option."
  }

  /** An error message shown after one control. */
  datatype FieldError = FieldError(input: Input, message: Message)

  // ---------------------------------------------------------------------------
  // Email: /^[^\s@]+@[^\s@]+\.[^\s@]+$/

  /** A character of `[^\s@]`. */
  predicate Plain(c: char) {
    !IsWhitespace(c) && c != '@'
  }

  predicate AllPlain(s: string) {
    forall k :: 0 <= k < |s| ==> Plain(s[k])
  }

  lemma AllPlainSlice(s: string, a: nat, b: nat)
    requires AllPlain(s) && a <= b <= |s|
    ensures AllPlain(s[a..b])
  {
    forall k | 0 <= k < b - a ensures Plain(s[a..b][k]) {
      assert s[a..b][k] == s[a + k];
    }
  }

  lemma AllPlainConcat(x: string, y: string)
    ensures AllPlain(x + y) <==> AllPlain(x) && AllPlain(y)
  {
    if AllPlain(x) && AllPlain(y) {
      forall k | 0 <= k < |x + y| ensures Plain((x + y)[k]) {
        if k >= |x| {
          assert (x + y)[k] == y[k - |x|];
        }
      }
    }
    if AllPlain(x + y) {
      forall k | 0 <= k < |x| ensures Plain(x[k]) {
        assert x[k] == (x + y)[k];
      }
      forall k | 0 <= k < |y| ensures Plain(y[k]) {
        assert y[k] == (x + y)[|x| + k];
      }
    }
  }

  /**
   * The email pattern read directly: a non-empty run of plain characters, an
   * '@', a non-empty run, a '.', and a non-empty run reaching the end.
   */
  ghost predicate EmailPattern(s: string) {
    exists i, j :: 0 < i && i + 1 < j < |s| - 1 && s[i] == '@' && s[j] == '.'
                   && AllPlain(s[..i]) && AllPlain(s[i + 1..j]) && AllPlain(s[j + 1..])
  }

  /** The first position of `c` in `s`, or `|s|` when there is none. */
  function IndexOf(s: string, c: char): (r: nat)
    ensures r <= |s|
    ensures r < |s| ==> s[r] == c
    ensures forall k :: 0 <= k < r ==> s[k] != c
  {
    if s == [] then 0
    else if s[0] == c then 0
    else 1 + IndexOf(s[1..], c)
  }

  /** Whether a '.' stands somewhere strictly inside `d`. */
  predicate HasInnerDot(d: string) {
    exists k :: 0 < k < |d| - 1 && d[k] == '.'
  }

  /**
   * The email rule as it is checked: split at the first '@'; the part before is
   * non-empty, neither part holds an '@' or whitespace, and the domain has a '.'
   * with a character on each side.
   */
  predicate IsEmail(s: string) {
    var i := IndexOf(s, '@');
    0 < i < |s| && AllPlain(s[..i]) && AllPlain(s[i + 1..]) && HasInnerDot(s[i + 1..])
  }

  lemma EmailRuleSound(s: string)
    requires IsEmail(s)
    ensures EmailPattern(s)
  {
    var i := IndexOf(s, '@');
    var d := s[i + 1..];
    var k :| 0 < k < |d| - 1 && d[k] == '.';
    var j := i + 1 + k;
    assert s[i + 1..j] == d[..k];
    assert s[j + 1..] == d[k + 1..];
    AllPlainSlice(d, 0, k);
    AllPlainSlice(d, k + 1, |d|);
    assert s[j] == '.';
  }

  /** A position holding `c` with no `c` before it is the first one. */
  lemma {:induction false} IndexOfFirst(s: string, c: char, i: nat)
    requires i < |s| && s[i] == c
    requires forall k :: 0 <= k < i ==> s[k] != c
    ensures IndexOf(s, c) == i
  {
    if i > 0 {
      IndexOfFirst(s[1..], c, i - 1);
    }
  }

  /** A '.' between two plain runs leaves a plain domain with an inner dot. */
  lemma DomainOfPattern(d: string, k: nat)
    requires 0 < k < |d| - 1 && d[k] == '.'
    requires AllPlain(d[..k]) && AllPlain(d[k + 1..])
    ensures AllPlain(d) && HasInnerDot(d)
  {
    assert d == d[..k] + [d[k]] + d[k + 1..];
    AllPlainConcat(d[..k], [d[k]]);
    AllPlainConcat(d[..k] + [d[k]], d[k + 1..]);
  }

  lemma EmailRuleComplete(s: string)
    requires EmailPattern(s)
    ensures IsEmail(s)
  {
    var i, j :| 0 < i && i + 1 < j < |s| - 1 && s[i] == '@' && s[j] == '.'
                && AllPlain(s[..i]) && AllPlain(s[i + 1..j]) && AllPlain(s[j + 1..]);
    EmailFromParts(s, i, j);
  }

  /** A string split as the pattern describes passes the checked rule. */
  lemma EmailFromParts(s: string, i: nat, j: nat)
    requires 0 < i && i + 1 < j < |s| - 1 && s[i] == '@' && s[j] == '.'
    requires AllPlain(s[..i]) && AllPlain(s[i + 1..j]) && AllPlain(s[j + 1..])
    ensures IsEmail(s)
  {
    forall k | 0 <= k < i ensures s[k] != '@' {
      assert s[k] == s[..i][k];
    }
    IndexOfFirst(s, '@', i);
    var d := s[i + 1..];
    var k := j - i - 1;
    assert d[..k] == s[i + 1..j] && d[k + 1..] == s[j + 1..];
    DomainOfPattern(d, k);
  }

  /** The checked rule accepts exactly the strings the pattern matches. */
  lemma EmailRuleMatchesPattern(s: string)
    ensures IsEmail(s) <==> EmailPattern(s)
  {
    if IsEmail(s) {
      EmailRuleSound(s);
    }
    if EmailPattern(s) {
      EmailRuleComplete(s);
    }
  }

  // ---------------------------------------------------------------------------
  // Telephone: /^\+?[0-9]{7,15}$/

  predicate IsDigit(c: char) {
    '0' <= c <= '9'
  }

  predicate AllDigits(s: string) {
    forall k :: 0 <= k < |s| ==> IsDigit(s[k])
  }

  /** The telephone rule as it is checked: drop one leading '+', then 7 to 15 digits. */
  predicate IsTelephone(s: string) {
    var digits := if |s| > 0 && s[0] == '+' then s[1..] else s;
    7 <= |digits| <= 15 && AllDigits(digits)
  }

  /** The checked rule accepts exactly 7 to 15 digits, with or without one '+' in front. */
  lemma TelephoneRuleMatchesPattern(s: string)
    ensures IsTelephone(s) <==>
      || (7 <= |s| <= 15 && AllDigits(s))
      || (|s| > 0 && s[0] == '+' && 7 <= |s| - 1 <= 15 && AllDigits(s[1..]))
  {
    if 7 <= |s| <= 15 && AllDigits(s) {
      assert IsDigit(s[0]);
    }
  }

  // ---------------------------------------------------------------------------
  // The per-type rules of `validate`

  /** Text and textarea values: at least two UTF-16 code units once trimmed. */
  predicate LongEnough(value: string) {
    Utf16Length(Trim(value)) >= 2
  }

  /** Whether a control of kind `kind` passes its rule; kinds without a rule always pass. */
  predicate Passes(kind: Kind, x: Input) {
    match kind
    case Email => IsEmail(x.value)
    case Text => LongEnough(x.value)
    case Textarea => LongEnough(x.value)
    case Tel => IsTelephone(x.value)
    case Date => x.value != ""
    case File => x.fileCount != 0
    case SelectOne => x.value != "default"
    case Other(_) => true
  }

  /**
   * The text rule read in characters: two characters once trimmed, or one
   * character outside the Basic Multilingual Plane; a blank value never passes.
   * Textarea controls follow the same rule.
   */
  lemma TextRuleInCharacters(x: Input)
    ensures Passes(Text, x) <==> |Trim(x.value)| >= 2 || (|Trim(x.value)| == 1 && Trim(x.value)[0] as int > 0xFFFF)
    ensures AllWhitespace(x.value) ==> !Passes(Text, x)
    ensures Passes(Textarea, x) == Passes(Text, x)
  {
    Utf16AtLeastTwo(Trim(x.value));
    TrimAllWhitespace(x.value);
  }

  /** The message shown after a failing control of kind `kind`. */
  function ErrorMessage(kind: Kind): Message {
    match kind
    case Email => InvalidEmail
    case Text => TooShort
    case Textarea => TooShort
    case Tel => InvalidPhone
    case Date => NoDate
    case File => NoFile
    case SelectOne | Other(_) => NoOption
  }

  /** The rule for kind `kind`, as a predicate on controls. */
  function RuleFor(kind: Kind): (rule: Input -> bool)
    ensures forall x :: rule(x) == Passes(kind, x)
  {
    x => Passes(kind, x)
  }

  /** How many controls of `g` fail `rule`. */
  function FailCount(rule: Input -> bool, g: seq<Input>): nat {
    if g == [] then 0
    else FailCount(rule, g[..|g| - 1]) + (if rule(g[|g| - 1]) then 0 else 1)
  }

  /** The messages one `forEach` over `g` shows: one per control failing `rule`, in order. */
  function GroupErrors(rule: Input -> bool, message: Message, g: seq<Input>): (r: seq<FieldError>)
    ensures |r| == FailCount(rule, g)
  {
    if g == [] then []
    else
      var last := g[|g| - 1];
      GroupErrors(rule, message, g[..|g| - 1]) + (if rule(last) then [] else [FieldError(last, message)])
  }

  lemma GroupErrorsSnoc(rule: Input -> bool, message: Message, g: seq<Input>, x: Input)
    ensures GroupErrors(rule, message, g + [x]) == GroupErrors(rule, message, g) + (if rule(x) then [] else [FieldError(x, message)])
  {
    assert (g + [x])[..|g|] == g;
  }

  /**
   * The messages of one group name exactly its failing controls: none when all
   * pass, each one about a failing control, and one for every failing control.
   */
  lemma GroupErrorsSpec(rule: Input -> bool, message: Message, g: seq<Input>)
    ensures GroupErrors(rule, message, g) == [] <==> forall i :: 0 <= i < |g| ==> rule(g[i])
    ensures forall e :: e in GroupErrors(rule, message, g) ==> e.input in g && !rule(e.input) && e.message == message
    ensures forall i :: 0 <= i < |g| && !rule(g[i]) ==> FieldError(g[i], message) in GroupErrors(rule, message, g)
  {
    GroupErrorsAbout(rule, message, g);
    GroupErrorsCover(rule, message, g);
    if GroupErrors(rule, message, g) != [] {
      assert GroupErrors(rule, message, g)[0] in GroupErrors(rule, message, g);
    }
  }

  lemma {:induction false} GroupErrorsAbout(rule: Input -> bool, message: Message, g: seq<Input>)
    ensures forall e :: e in GroupErrors(rule, message, g) ==> e.input in g && !rule(e.input) && e.message == message
  {
    if g != [] {
      var init, x := g[..|g| - 1], g[|g| - 1];
      assert g == init + [x];
      GroupErrorsAbout(rule, message, init);
      GroupErrorsSnoc(rule, message, init, x);
    }
  }

  lemma {:induction false} GroupErrorsCover(rule: Input -> bool, message: Message, g: seq<Input>)
    ensures forall i :: 0 <= i < |g| && !rule(g[i]) ==> FieldError(g[i], message) in GroupErrors(rule, message, g)
  {
    if g != [] {
      var init, x := g[..|g| - 1], g[|g| - 1];
      assert g == init + [x];
      GroupErrorsCover(rule, message, init);
      GroupErrorsSnoc(rule, message, init, x);
      forall i | 0 <= i < |g| && !rule(g[i]) ensures FieldError(g[i], message) in GroupErrors(rule, message, g) {
        if i < |init| {
          assert g[i] == init[i];
        }
      }
    }
  }

  // ---------------------------------------------------------------------------
  // Grouping by type

  /** The controls of `s` whose kind is `t`, in document order. */
  function OfType(s: seq<Input>, t: Kind): (r: seq<Input>)
    ensures |r| <= |s|
  {
    if s == [] then []
    else OfType(s[..|s| - 1], t) + (if s[|s| - 1].kind == t then [s[|s| - 1]] else [])
  }

  /** The group of kind `t` holds exactly the controls of `s` of that kind. */
  lemma {:induction false} OfTypeMembers(s: seq<Input>, t: Kind)
    ensures forall x :: x in OfType(s, t) <==> x in s && x.kind == t
  {
    if s != [] {
      var init := s[..|s| - 1];
      OfTypeMembers(init, t);
      assert s == init + [s[|s| - 1]];
    }
  }

  lemma OfTypeSnoc(s: seq<Input>, x: Input, t: Kind)
    ensures OfType(s + [x], t) == OfType(s, t) + (if x.kind == t then [x] else [])
  {
    assert (s + [x])[..|s|] == s;
  }

  /** The kinds present in `s`. */
  function KindsOf(s: seq<Input>): set<Kind> {
    set i | 0 <= i < |s| :: s[i].kind
  }

  lemma KindsOfSnoc(s: seq<Input>, x: Input)
    ensures KindsOf(s + [x]) == KindsOf(s) + {x.kind}
  {
    var s' := s + [x];
    forall t | t in KindsOf(s') ensures t in KindsOf(s) + {x.kind} {
      var k :| 0 <= k < |s'| && s'[k].kind == t;
      if k < |s| {
        assert s'[k] == s[k];
      }
    }
    forall t | t in KindsOf(s) ensures t in KindsOf(s') {
      var k :| 0 <= k < |s| && s[k].kind == t;
      assert s'[k] == s[k];
    }
    assert s'[|s|] == x;
  }

  /** `this.inputs[kind] || []`. */
  function Lookup(groups: map<Kind, seq<Input>>, kind: Kind): seq<Input> {
    if kind in groups then groups[kind] else []
  }

  /** Whether `groups` is the grouping of `s`: one group per present kind, holding that kind's controls in order. */
  predicate GroupedFrom(groups: map<Kind, seq<Input>>, s: seq<Input>) {
    && groups.Keys == KindsOf(s)
    && forall t :: t in groups ==> groups[t] == OfType(s, t)
  }

  /** In a grouping, looking up any kind, present or not, gives that kind's controls. */
  lemma LookupIsOfType(groups: map<Kind, seq<Input>>, s: seq<Input>, t: Kind)
    requires GroupedFrom(groups, s)
    ensures Lookup(groups, t) == OfType(s, t)
  {
    if t !in groups {
      OfTypeAbsent(s, t);
    }
  }

  /** Appending a control to its kind's group keeps the map a grouping of the longer sequence. */
  lemma GroupedFromSnoc(groups: map<Kind, seq<Input>>, s: seq<Input>, x: Input)
    requires GroupedFrom(groups, s)
    ensures GroupedFrom(groups[x.kind := Lookup(groups, x.kind) + [x]], s + [x])
  {
    var g := groups[x.kind := Lookup(groups, x.kind) + [x]];
    LookupIsOfType(groups, s, x.kind);
    KindsOfSnoc(s, x);
    forall t | t in g ensures g[t] == OfType(s + [x], t) {
      OfTypeSnoc(s, x, t);
    }
  }

  /** A kind that no control has gets an empty group. */
  lemma {:induction false} OfTypeAbsent(s: seq<Input>, t: Kind)
    requires t !in KindsOf(s)
    ensures OfType(s, t) == []
  {
    if s != [] {
      var init, x := s[..|s| - 1], s[|s| - 1];
      assert s == init + [x];
      KindsOfSnoc(init, x);
      OfTypeAbsent(init, t);
    }
  }

  /** The sum of the group sizes for the kinds listed in `ts`. */
  function GroupSizes(groups: map<Kind, seq<Input>>, ts: seq<Kind>): nat {
    if ts == [] then 0 else GroupSizes(groups, ts[..|ts| - 1]) + |Lookup(groups, ts[|ts| - 1])|
  }

  /** The sum of |OfType(s, t)| for the kinds listed in `ts`. */
  function OfTypeSizes(s: seq<Input>, ts: seq<Kind>): nat {
    if ts == [] then 0 else OfTypeSizes(s, ts[..|ts| - 1]) + |OfType(s, ts[|ts| - 1])|
  }

  /** How often `t` occurs in `ts`. */
  function Occurrences(ts: seq<Kind>, t: Kind): nat {
    if ts == [] then 0 else Occurrences(ts[..|ts| - 1], t) + (if ts[|ts| - 1] == t then 1 else 0)
  }

  lemma {:induction false} OccurrencesOfDistinct(ts: seq<Kind>, t: Kind)
    requires forall i, j :: 0 <= i < j < |ts| ==> ts[i] != ts[j]
    ensures Occurrences(ts, t) == if t in ts then 1 else 0
  {
    if ts != [] {
      var init := ts[..|ts| - 1];
      OccurrencesOfDistinct(init, t);
      assert ts == init + [ts[|ts| - 1]];
      if ts[|ts| - 1] == t {
        assert t !in init;
      }
    }
  }

  lemma {:induction false} OfTypeSizesStep(s: seq<Input>, x: Input, ts: seq<Kind>)
    ensures OfTypeSizes(s + [x], ts) == OfTypeSizes(s, ts) + Occurrences(ts, x.kind)
  {
    if ts != [] {
      OfTypeSizesStep(s, x, ts[..|ts| - 1]);
      OfTypeSnoc(s, x, ts[|ts| - 1]);
    }
  }

  lemma {:induction false} OfTypeSizesEmpty(ts: seq<Kind>)
    ensures OfTypeSizes([], ts) == 0
  {
    if ts != [] {
      OfTypeSizesEmpty(ts[..|ts| - 1]);
    }
  }

  lemma {:induction false} OfTypeSizesCover(s: seq<Input>, ts: seq<Kind>)
    requires forall i, j :: 0 <= i < j < |ts| ==> ts[i] != ts[j]
    requires forall i :: 0 <= i < |s| ==> s[i].kind in ts
    ensures OfTypeSizes(s, ts) == |s|
  {
    if s == [] {
      OfTypeSizesEmpty(ts);
    } else {
      var init, x := s[..|s| - 1], s[|s| - 1];
      assert s == init + [x];
      OfTypeSizesCover(init, ts);
      OfTypeSizesStep(init, x, ts);
      OccurrencesOfDistinct(ts, x.kind);
    }
  }

  lemma {:induction false} SizesAgree(groups: map<Kind, seq<Input>>, s: seq<Input>, ts: seq<Kind>)
    requires GroupedFrom(groups, s)
    ensures GroupSizes(groups, ts) == OfTypeSizes(s, ts)
  {
    if ts != [] {
      SizesAgree(groups, s, ts[..|ts| - 1]);
      LookupIsOfType(groups, s, ts[|ts| - 1]);
    }
  }

  /** Grouping loses no control: the groups, each listed once, hold as many controls as the form. */
  lemma GroupingKeepsCount(groups: map<Kind, seq<Input>>, s: seq<Input>, ts: seq<Kind>)
    requires GroupedFrom(groups, s)
    requires forall i, j :: 0 <= i < j < |ts| ==> ts[i] != ts[j]
    requires forall t :: t in ts <==> t in groups
    ensures GroupSizes(groups, ts) == |s|
  {
    SizesAgree(groups, s, ts);
    forall i | 0 <= i < |s| ensures s[i].kind in ts {
      assert s[i].kind in KindsOf(s);
    }
    OfTypeSizesCover(s, ts);
  }

  // ---------------------------------------------------------------------------
  // The whole check

  /** The messages `validate` shows for the controls of kind `kind` in `groups`. */
  function KindErrors(groups: map<Kind, seq<Input>>, kind: Kind): seq<FieldError> {
    GroupErrors(RuleFor(kind), ErrorMessage(kind), Lookup(groups, kind))
  }

  /** Every message `validate` shows for these groups, in the order it checks the kinds. */
  function ValidationErrors(groups: map<Kind, seq<Input>>): seq<FieldError> {
    KindErrors(groups, Email) + KindErrors(groups, Text) + KindErrors(groups, Textarea)
    + KindErrors(groups, Tel) + KindErrors(groups, Date) + KindErrors(groups, File)
    + KindErrors(groups, SelectOne)
  }

  /** The kinds `validate` has a rule for. */
  predicate Checked(kind: Kind) {
    !kind.Other?
  }

  /** In a form built from `s`, one kind shows no message iff every control of that kind passes. */
  lemma KindErrorsEmptyIffPass(groups: map<Kind, seq<Input>>, s: seq<Input>, t: Kind)
    requires GroupedFrom(groups, s)
    ensures KindErrors(groups, t) == [] <==> forall i :: 0 <= i < |s| && s[i].kind == t ==> Passes(t, s[i])
  {
    LookupIsOfType(groups, s, t);
    var g := OfType(s, t);
    GroupErrorsSpec(RuleFor(t), ErrorMessage(t), g);
    OfTypeMembers(s, t);
    if KindErrors(groups, t) == [] {
      forall i | 0 <= i < |s| && s[i].kind == t ensures Passes(t, s[i]) {
        assert s[i] in g;
        var j :| 0 <= j < |g| && g[j] == s[i];
        assert RuleFor(t)(g[j]);
      }
    }
    if forall i :: 0 <= i < |s| && s[i].kind == t ==> Passes(t, s[i]) {
      forall j | 0 <= j < |g| ensures RuleFor(t)(g[j]) {
        assert g[j] in g;
        var i :| 0 <= i < |s| && s[i] == g[j];
      }
    }
  }

  /**
   * A form built from `s` shows no message iff every control whose kind has a
   * rule passes it; controls of other kinds are never looked at.
   */
  lemma NoErrorsIffAllPass(groups: map<Kind, seq<Input>>, s: seq<Input>)
    requires GroupedFrom(groups, s)
    ensures ValidationErrors(groups) == [] <==>
      forall i :: 0 <= i < |s| && Checked(s[i].kind) ==> Passes(s[i].kind, s[i])
  {
    FailuresGetErrors(groups, s);
    ErrorsAreAboutFailures(groups, s);
    if ValidationErrors(groups) != [] {
      var e := ValidationErrors(groups)[0];
      assert e in ValidationErrors(groups);
      var i :| 0 <= i < |s| && s[i] == e.input;
    }
  }

  lemma FailCountSnoc(rule: Input -> bool, g: seq<Input>, x: Input)
    ensures FailCount(rule, g + [x]) == FailCount(rule, g) + (if rule(x) then 0 else 1)
  {
    assert (g + [x])[..|g|] == g;
  }

  /** How many controls of `s` have kind `t` and fail its rule. */
  function KindFailures(s: seq<Input>, t: Kind): nat {
    FailCount(RuleFor(t), OfType(s, t))
  }

  lemma KindFailuresSnoc(s: seq<Input>, x: Input, t: Kind)
    ensures KindFailures(s + [x], t) == KindFailures(s, t) + (if x.kind == t && !Passes(t, x) then 1 else 0)
  {
    OfTypeSnoc(s, x, t);
    if x.kind == t {
      FailCountSnoc(RuleFor(t), OfType(s, t), x);
    } else {
      assert OfType(s + [x], t) == OfType(s, t);
    }
  }

  /** How many controls of `s` have a kind with a rule and fail it. */
  function CheckedFailures(s: seq<Input>): nat {
    if s == [] then 0
    else
      var x := s[|s| - 1];
      CheckedFailures(s[..|s| - 1]) + (if Checked(x.kind) && !Passes(x.kind, x) then 1 else 0)
  }

  /** The failures counted kind by kind add up to the failing controls of the form. */
  lemma {:induction false} KindFailuresTotal(s: seq<Input>)
    ensures KindFailures(s, Email) + KindFailures(s, Text) + KindFailures(s, Textarea) + KindFailures(s, Tel)
      + KindFailures(s, Date) + KindFailures(s, File) + KindFailures(s, SelectOne) == CheckedFailures(s)
  {
    if s != [] {
      var init, x := s[..|s| - 1], s[|s| - 1];
      assert s == init + [x];
      KindFailuresTotal(init);
      KindFailuresSnoc(init, x, Email);
      KindFailuresSnoc(init, x, Text);
      KindFailuresSnoc(init, x, Textarea);
      KindFailuresSnoc(init, x, Tel);
      KindFailuresSnoc(init, x, Date);
      KindFailuresSnoc(init, x, File);
      KindFailuresSnoc(init, x, SelectOne);
    }
  }

  /** The messages of one kind are about exactly its failing controls, one for each. */
  lemma KindErrorsExact(groups: map<Kind, seq<Input>>, s: seq<Input>, t: Kind)
    requires GroupedFrom(groups, s)
    ensures |KindErrors(groups, t)| == KindFailures(s, t)
    ensures forall e :: e in KindErrors(groups, t) ==>
      e.input in s && e.input.kind == t && !Passes(t, e.input) && e.message == ErrorMessage(t)
    ensures forall i :: 0 <= i < |s| && s[i].kind == t && !Passes(t, s[i]) ==>
      FieldError(s[i], ErrorMessage(t)) in KindErrors(groups, t)
  {
    LookupIsOfType(groups, s, t);
    KindErrorsAbout(groups, s, t);
    KindErrorsCover(groups, s, t);
  }

  lemma KindErrorsAbout(groups: map<Kind, seq<Input>>, s: seq<Input>, t: Kind)
    requires GroupedFrom(groups, s)
    ensures forall e :: e in KindErrors(groups, t) ==>
      e.input in s && e.input.kind == t && !Passes(t, e.input) && e.message == ErrorMessage(t)
  {
    LookupIsOfType(groups, s, t);
    GroupErrorsAbout(RuleFor(t), ErrorMessage(t), OfType(s, t));
    OfTypeMembers(s, t);
  }

  lemma KindErrorsCover(groups: map<Kind, seq<Input>>, s: seq<Input>, t: Kind)
    requires GroupedFrom(groups, s)
    ensures forall i :: 0 <= i < |s| && s[i].kind == t && !Passes(t, s[i]) ==>
      FieldError(s[i], ErrorMessage(t)) in KindErrors(groups, t)
  {
    LookupIsOfType(groups, s, t);
    var g := OfType(s, t);
    GroupErrorsCover(RuleFor(t), ErrorMessage(t), g);
    OfTypeMembers(s, t);
    forall i | 0 <= i < |s| && s[i].kind == t && !Passes(t, s[i])
      ensures FieldError(s[i], ErrorMessage(t)) in KindErrors(groups, t)
    {
      assert s[i] in g;
      var j :| 0 <= j < |g| && g[j] == s[i];
      assert !RuleFor(t)(g[j]);
    }
  }

  /** `validate` shows as many messages as there are failing controls. */
  lemma ErrorCountIsFailureCount(groups: map<Kind, seq<Input>>, s: seq<Input>)
    requires GroupedFrom(groups, s)
    ensures |ValidationErrors(groups)| == CheckedFailures(s)
  {
    KindErrorsExact(groups, s, Email);
    KindErrorsExact(groups, s, Text);
    KindErrorsExact(groups, s, Textarea);
    KindErrorsExact(groups, s, Tel);
    KindErrorsExact(groups, s, Date);
    KindErrorsExact(groups, s, File);
    KindErrorsExact(groups, s, SelectOne);
    KindFailuresTotal(s);
  }

  /** Whether `e` is the message `validate` gives a control that fails its kind's rule. */
  predicate AboutFailure(e: FieldError) {
    Checked(e.input.kind) && !Passes(e.input.kind, e.input) && e.message == ErrorMessage(e.input.kind)
  }

  /** Every message `validate` shows is about a failing control of the form. */
  lemma ErrorsAreAboutFailures(groups: map<Kind, seq<Input>>, s: seq<Input>)
    requires GroupedFrom(groups, s)
    ensures forall e :: e in ValidationErrors(groups) ==> e.input in s && AboutFailure(e)
  {
    KindErrorsExact(groups, s, Email);
    KindErrorsExact(groups, s, Text);
    KindErrorsExact(groups, s, Textarea);
    KindErrorsExact(groups, s, Tel);
    KindErrorsExact(groups, s, Date);
    KindErrorsExact(groups, s, File);
    KindErrorsExact(groups, s, SelectOne);
  }

  /** Every failing control of the form gets its kind's message. */
  lemma FailuresGetErrors(groups: map<Kind, seq<Input>>, s: seq<Input>)
    requires GroupedFrom(groups, s)
    ensures forall i :: 0 <= i < |s| && Checked(s[i].kind) && !Passes(s[i].kind, s[i]) ==>
      FieldError(s[i], ErrorMessage(s[i].kind)) in ValidationErrors(groups)
  {
    forall i | 0 <= i < |s| && Checked(s[i].kind) && !Passes(s[i].kind, s[i])
      ensures FieldError(s[i], ErrorMessage(s[i].kind)) in ValidationErrors(groups)
    {
      KindErrorsExact(groups, s, s[i].kind);
    }
  }

  /** A form: its controls grouped by type, and the error messages it shows. */
  class Form {
    var inputs: map<Kind, seq<Input>>
    var errors: seq<FieldError>
    /** The form's controls in document order, as the constructor found them. */
    ghost var controls: seq<Input>

    /** The groups are the grouping of the form's controls. */
    ghost predicate Valid()
      reads this
    {
      GroupedFrom(inputs, controls)
    }

    /** Groups the controls `source` holds, in document order, by their type. */
    constructor (source: seq<Input>)
      ensures controls == source && Valid() && errors == []
    {
      var groups: map<Kind, seq<Input>> := map[];
      var i := 0;
      while i < |source|
        invariant 0 <= i <= |source|
        invariant GroupedFrom(groups, source[..i])
      {
        var input := source[i];
        ghost var prev := groups;
        if input.kind !in groups {
          groups := groups[input.kind := []];
        }
        groups := groups[input.kind := groups[input.kind] + [input]];
        assert groups == prev[input.kind := Lookup(prev, input.kind) + [input]];
        GroupedFromSnoc(prev, source[..i], input);
        assert source[..i + 1] == source[..i] + [input];
        i := i + 1;
      }
      assert source[..|source|] == source;
      inputs := groups;
      errors := [];
      controls := source;
    }

    /** Removes every shown message. */
    method ClearErrors()
      modifies this
      ensures inputs == old(inputs) && controls == old(controls) && errors == []
    {
      errors := [];
    }

    /** Shows `message` after the control `input`. */
    method DisplayError(input: Input, message: Message)
      modifies this
      ensures inputs == old(inputs) && controls == old(controls)
      ensures errors == old(errors) + [FieldError(input, message)]
    {
      errors := errors + [FieldError(input, message)];
    }

    /**
     * One `forEach` of `validate`: tests each control of kind `kind` with `rule`
     * and shows `message` after each one that fails.
     */
    method CheckGroup(kind: Kind, rule: Input -> bool, message: Message) returns (groupValid: bool)
      modifies this
      ensures inputs == old(inputs) && controls == old(controls)
      ensures errors == old(errors) + GroupErrors(rule, message, Lookup(inputs, kind))
      ensures groupValid <==> GroupErrors(rule, message, Lookup(inputs, kind)) == []
    {
      var group := Lookup(inputs, kind);
      ghost var before, groups, all := errors, inputs, controls;
      ghost var shown: seq<FieldError> := [];
      groupValid := true;
      var i := 0;
      while i < |group|
        invariant 0 <= i <= |group|
        invariant inputs == groups && controls == all
        invariant shown == GroupErrors(rule, message, group[..i])
        invariant errors == before + shown
        invariant groupValid <==> shown == []
      {
        assert group[..i + 1] == group[..i] + [group[i]];
        GroupErrorsSnoc(rule, message, group[..i], group[i]);
        if !rule(group[i]) {
          groupValid := false;
          DisplayError(group[i], message);
          shown := shown + [FieldError(group[i], message)];
        }
        i := i + 1;
      }
      assert group[..i] == group;
    }

    /**
     * `validate`: clears the old messages, then checks the email, text,
     * textarea, telephone, date, file and select controls in that order.
     * The result is true iff no message is shown, that is, iff every control
     * of a checked type passes its rule.
     */
    method Validate() returns (isValid: bool)
      requires Valid()
      modifies this
      ensures inputs == old(inputs) && controls == old(controls) && Valid()
      ensures errors == ValidationErrors(inputs)
      ensures isValid <==> errors == []
      ensures isValid <==> forall i :: 0 <= i < |controls| && Checked(controls[i].kind) ==>
        Passes(controls[i].kind, controls[i])
    {
      ClearErrors();
      isValid := true;
      var ok := CheckGroup(Email, RuleFor(Email), ErrorMessage(Email));
      if !ok { isValid := false; }
      assert errors == KindErrors(inputs, Email) && (isValid <==> errors == []);
      ok := CheckGroup(Text, RuleFor(Text), ErrorMessage(Text));
      if !ok { isValid := false; }
      assert isValid <==> errors == [];
      ok := CheckGroup(Textarea, RuleFor(Textarea), ErrorMessage(Textarea));
      if !ok { isValid := false; }
      assert isValid <==> errors == [];
      ok := CheckGroup(Tel, RuleFor(Tel), ErrorMessage(Tel));
      if !ok { isValid := false; }
      assert isValid <==> errors == [];
      ok := CheckGroup(Date, RuleFor(Date), ErrorMessage(Date));
      if !ok { isValid := false; }
      assert isValid <==> errors == [];
      ok := CheckGroup(File, RuleFor(File), ErrorMessage(File));
      if !ok { isValid := false; }
      assert isValid <==> errors == [];
      ok := CheckGroup(SelectOne, RuleFor(SelectOne), ErrorMessage(SelectOne));
      if !ok { isValid := false; }
      NoErrorsIffAllPass(inputs, controls);
    }
  }

  // ---------------------------------------------------------------------------
  // The subscription box

  /** The text shown under the subscription box: the email message of `validate` and four spaces. */
  const SubscriptionErrorText: string := MessageText(InvalidEmail) + "    "

  /** The subscription box: the typed address and the message shown under it, if any. */
  class SubscriptionForm {
    var email: string
    var error: Option<string>

    constructor (email: string)
      ensures this.email == email && error == None
    {
      this.email := email;
      error := None;
    }

    /**
     * `handleSubscriptionForm`: removes the old message, then checks the trimmed
     * address with the email rule. A bad address gets the message; a good one
     * subscribes and empties the box.
     */
    method HandleSubscription() returns (subscribed: bool)
      modifies this
      ensures subscribed <==> EmailPattern(Trim(old(email)))
      ensures subscribed ==> email == "" && error == None
      ensures !subscribed ==> email == old(email) && error == Some(SubscriptionErrorText)
    {
      var value := Trim(email);
      error := None;
      EmailRuleMatchesPattern(value);
      if !IsEmail(value) {
        error := Some(SubscriptionErrorText);
        return false;
      }
      email := "";
      return true;
    }
  }
}
