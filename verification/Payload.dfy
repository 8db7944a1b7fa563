/** Presentation and interactive payloads: normalizing raw values and converting between
    the two forms. */
module Payload {
  import opened Options
  import opened Texts

  /** The dictionary keys the code reads, and all others. */
  datatype Key =
    | Type | Text | Label | Value | CallbackData | CallbackData2 | Command | Url | WebApp | WebApp2
    | ActionKey | Priority | Disabled | Reusable | Style | Buttons | OptionsKey | Placeholder | Blocks | Title | Tone
    | OtherKey(name: string)

  /** A raw Python value as it comes out of JSON; `Other` stands for floats and the like. */
  datatype Json =
    | Null
    | Bool(b: bool)
    | Num(n: int)
    | Other(truthy: bool)
    | Str(s: string)
    | List(items: seq<Json>)
    | Obj(fields: map<Key, Json>)

  /** `record.get(key)`, with `Null` for what is missing or no record. */
  function Get(v: Json, k: Key): Json {
    if v.Obj? && k in v.fields then v.fields[k] else Null
  }

  /** Python truthiness. */
  predicate IsTrue(v: Json) {
    match v
    case Null => false
    case Bool(b) => b
    case Num(n) => n != 0
    case Other(t) => t
    case Str(s) => s != ""
    case List(items) => items != []
    case Obj(fields) => fields != map[]
  }

  function ItemsOf(v: Json): seq<Json> {
    if v.List? then v.items else []
  }

  /** Sets a key if there is a value for it. */
  function Put(m: map<Key, Json>, k: Key, v: Option<Json>): map<Key, Json> {
    if v.Some? then m[k := v.value] else m
  }

  function StrOf(s: Option<string>): Option<Json> {
    if s.Some? then Some(Str(s.value)) else None
  }

  // ---------- strings ----------

  /** `normalize_optional_string` */
  function Clean(v: Json): Option<string> {
    if v.Str? then TrimOrNone(v.s) else None
  }

  /** `normalize_optional_lowercase_string` */
  function CleanLower(v: Json): Option<string> {
    if Clean(v).Some? then Some(Lower(Clean(v).value)) else None
  }

  /** `a or b` on cleaned strings, which are never empty. */
  function Either(a: Option<string>, b: Option<string>): Option<string> {
    if a.Some? then a else b
  }

  /** A string that cleaning returned. */
  predicate IsClean(s: string) {
    s != "" && TrimOrNone(s) == Some(s)
  }

  lemma CleanIsClean(v: Json)
    ensures Clean(v).Some? ==> IsClean(Clean(v).value)
  {
    if v.Str? { StripIdempotent(v.s); }
  }

  lemma {:induction false} TrimmedStrip(s: string)
    requires Trimmed(s)
    ensures Strip(s) == s
  {
  }

  /** Lower-casing neither makes nor removes spaces, and is idempotent. */
  lemma LowerKeepsTrim(s: string)
    requires Trimmed(s)
    ensures Trimmed(Lower(s)) && Lower(Lower(s)) == Lower(s) && (s != "" ==> Lower(s) != "")
  {
    assert forall c: char :: IsSpace(LowerChar(c)) <==> IsSpace(c);
  }

  lemma CleanLowerIdempotent(v: Json)
    ensures CleanLower(v).Some? ==> CleanLower(Str(CleanLower(v).value)) == CleanLower(v)
  {
    if v.Str? {
      StripIdempotent(v.s);
      LowerKeepsTrim(Strip(v.s));
      TrimmedStrip(Lower(Strip(v.s)));
    }
  }

  // ---------- types of blocks and actions ----------

  datatype Kind = KText | KContext | KDivider | KButtons | KSelect | KCommand | KCallback | KUnknown

  function Word(k: Kind): string {
    match k
    case KText => "text"
    case KContext => "context"
    case KDivider => "divider"
    case KButtons => "buttons"
    case KSelect => "select"
    case KCommand => "command"
    case KCallback => "callback"
    case KUnknown => ""
  }

  function KindOfWord(w: string): Kind {
    if w == "text" then KText
    else if w == "context" then KContext
    else if w == "divider" then KDivider
    else if w == "buttons" then KButtons
    else if w == "select" then KSelect
    else if w == "command" then KCommand
    else if w == "callback" then KCallback
    else KUnknown
  }

  /** The type of a raw record, up to case and spaces. */
  function LooseKind(v: Json): Kind {
    var w := CleanLower(Get(v, Type));
    if w.Some? then KindOfWord(w.value) else KUnknown
  }

  /** The type of a record, read literally. */
  function ExactKind(v: Json): Kind {
    var t := Get(v, Type);
    if t.Str? then KindOfWord(t.s) else KUnknown
  }

  lemma WordsDiffer(k: Kind)
    ensures KindOfWord(Word(k)) == k
  {
    assert "context"[0] == 'c' && "divider"[0] == 'd' && "buttons"[0] == 'b' && "command"[0] == 'c';
    assert "context"[2] == 'n' && "command"[2] == 'm';
  }

  lemma LowerWord(k: Kind)
    requires k != KUnknown
    ensures Trimmed(Word(k)) && Lower(Word(k)) == Word(k) && Word(k) != ""
  {
    var w := Word(k);
    assert forall i :: 0 <= i < |w| ==> 'a' <= w[i] <= 'z' by {
      match k
      case KText => assert w == ['t', 'e', 'x', 't'];
      case KContext => assert w == ['c', 'o', 'n', 't', 'e', 'x', 't'];
      case KDivider => assert w == ['d', 'i', 'v', 'i', 'd', 'e', 'r'];
      case KButtons => assert w == ['b', 'u', 't', 't', 'o', 'n', 's'];
      case KSelect => assert w == ['s', 'e', 'l', 'e', 'c', 't'];
      case KCommand => assert w == ['c', 'o', 'm', 'm', 'a', 'n', 'd'];
      case KCallback => assert w == ['c', 'a', 'l', 'l', 'b', 'a', 'c', 'k'];
    }
  }

  function TypeField(k: Kind): map<Key, Json> {
    map[Type := Str(Word(k))]
  }

  /** A record whose type is a known word has that kind, read either way. */
  lemma TypedKinds(v: Json, k: Kind)
    requires k != KUnknown && Get(v, Type) == Str(Word(k))
    ensures LooseKind(v) == k && ExactKind(v) == k
  {
    WordsDiffer(k);
    LowerWord(k);
    TrimmedStrip(Word(k));
  }

  // ---------- actions ----------

  /** A cleaned action of a button or an option. */
  datatype Action = RunCommand(text: string) | SendBack(text: string)

  function ActionJson(a: Action): Json {
    match a
    case RunCommand(text) => Obj(TypeField(KCommand)[Command := Str(text)])
    case SendBack(text) => Obj(TypeField(KCallback)[Value := Str(text)])
  }

  /** What `normalize_button_action` finds in a raw value. */
  function ReadAction(raw: Json): Option<Action> {
    match LooseKind(raw)
    case KCommand =>
      var text := Clean(Get(raw, Command));
      if text.Some? then Some(RunCommand(text.value)) else None
    case KCallback =>
      var text := Clean(Get(raw, Value));
      if text.Some? then Some(SendBack(text.value)) else None
    case _ => None
  }

  /** `resolve_message_presentation_action_value` on a record, `Null` for none. */
  function ActionValue(action: Json): Json {
    match ExactKind(action)
    case KCommand => Get(action, Command)
    case KCallback => Get(action, Value)
    case _ => Null
  }

  /** `resolve_message_presentation_control_value`: the action goes before the plain value. */
  function ControlValue(control: Json): Json {
    var value := ActionValue(Get(control, ActionKey));
    if value != Null then value
    else if Get(control, Value).Str? then Get(control, Value)
    else Null
  }

  predicate CleanAction(a: Option<Action>) {
    a.Some? ==> IsClean(a.value.text)
  }

  predicate CleanOption(s: Option<string>) {
    s.Some? ==> IsClean(s.value)
  }

  lemma ReadActionIsClean(raw: Json)
    ensures CleanAction(ReadAction(raw))
  {
    CleanIsClean(Get(raw, Command));
    CleanIsClean(Get(raw, Value));
  }

  lemma ReadActionBack(a: Action)
    requires IsClean(a.text)
    ensures ReadAction(ActionJson(a)) == Some(a) && ActionValue(ActionJson(a)) == Str(a.text)
  {
    match a
    case RunCommand(text) => TypedKinds(ActionJson(a), KCommand);
    case SendBack(text) => TypedKinds(ActionJson(a), KCallback);
  }

  // ---------- buttons ----------

  datatype ButtonParts = ButtonParts(
    caption: string, action: Option<Action>, value: Option<string>, url: Option<string>, webApp: Option<string>,
    priority: Option<int>, disabled: bool, reusable: bool, style: Option<string>)

  predicate IsStyle(s: string) {
    s in {"primary", "secondary", "success", "danger"}
  }

  predicate IsTone(s: string) {
    s in {"info", "success", "warning", "danger", "neutral"}
  }

  /** A lower-cased word, kept only if it is an allowed one. */
  function WordAmong(v: Json, allowed: string -> bool): Option<string> {
    var w := CleanLower(v);
    if w.Some? && allowed(w.value) then w else None
  }

  lemma WordAmongBack(v: Json, allowed: string -> bool)
    requires WordAmong(v, allowed).Some?
    ensures WordAmong(Str(WordAmong(v, allowed).value), allowed) == WordAmong(v, allowed)
  {
    CleanLowerIdempotent(v);
  }

  /** A record with at least one field, else `Null`. */
  function RecordOf(v: Json): Json {
    if v.Obj? && IsTrue(v) then v else Null
  }

  /** The address of the web app, under either spelling of its key. */
  function WebAppUrl(raw: Json): Option<string> {
    var first := RecordOf(Get(raw, WebApp));
    Clean(Get(if first != Null then first else RecordOf(Get(raw, WebApp2)), Url))
  }

  /** What `_normalize_button_entry` finds in a raw value. */
  function ReadButton(raw: Json): Option<ButtonParts> {
    var caption := Either(Clean(Get(raw, Label)), Clean(Get(raw, Text)));
    if caption.None? then None
    else
      Some(ButtonParts(
        caption.value,
        ReadAction(Get(raw, ActionKey)),
        Either(Clean(Get(raw, Value)), Either(Clean(Get(raw, CallbackData)), Clean(Get(raw, CallbackData2)))),
        Clean(Get(raw, Url)),
        WebAppUrl(raw),
        if Get(raw, Priority).Num? then Some(Get(raw, Priority).n) else None,
        Get(raw, Disabled) == Bool(true),
        Get(raw, Reusable) == Bool(true),
        WordAmong(Get(raw, Style), IsStyle)))
  }

  function Flag(raised: bool): Json {
    if raised then Bool(true) else Null
  }

  function ActionField(a: Option<Action>): Option<Json> {
    if a.Some? then Some(ActionJson(a.value)) else None
  }

  function WebAppField(url: Option<string>): Option<Json> {
    if url.Some? then Some(Obj(map[Url := Str(url.value)])) else None
  }

  function PriorityField(n: Option<int>): Option<Json> {
    if n.Some? then Some(Num(n.value)) else None
  }

  /** The fields of a button record. */
  const BUTTON_KEYS: set<Key> := {Label, ActionKey, Value, Url, WebApp, Priority, Disabled, Reusable, Style}

  function OrNull(v: Option<Json>): Json {
    if v.Some? then v.value else Null
  }

  /** What a cleaned button holds under a key, `Null` for nothing. */
  function ButtonField(p: ButtonParts, k: Key): Json {
    match k
    case Label => Str(p.caption)
    case ActionKey => OrNull(ActionField(p.action))
    case Value => OrNull(StrOf(p.value))
    case Url => OrNull(StrOf(p.url))
    case WebApp => OrNull(WebAppField(p.webApp))
    case Priority => OrNull(PriorityField(p.priority))
    case Disabled => Flag(p.disabled)
    case Reusable => Flag(p.reusable)
    case Style => OrNull(StrOf(p.style))
    case _ => Null
  }

  /** The button record with these fields; only the label is there whatever its value. */
  function Record(f: Key -> Json): Json {
    Obj(map k | k in BUTTON_KEYS && (k == Label || f(k) != Null) :: f(k))
  }

  lemma RecordField(f: Key -> Json, k: Key)
    ensures Get(Record(f), k) == if k in BUTTON_KEYS then f(k) else Null
  {
  }

  lemma SameRecord(f: Key -> Json, g: Key -> Json)
    requires forall k :: k in BUTTON_KEYS ==> f(k) == g(k)
    ensures Record(f) == Record(g)
  {
    assert Record(f).fields == Record(g).fields;
  }

  function BuildButton(p: ButtonParts): Json {
    Record(k => ButtonField(p, k))
  }

  /** `_normalize_button_entry` */
  function NormButton(raw: Json): Option<Json> {
    var p := ReadButton(raw);
    if p.Some? then Some(BuildButton(p.value)) else None
  }

  predicate CleanButton(p: ButtonParts) {
    && IsClean(p.caption) && CleanAction(p.action)
    && CleanOption(p.value) && CleanOption(p.url) && CleanOption(p.webApp)
    && (p.style.Some? ==> WordAmong(Str(p.style.value), IsStyle) == p.style)
  }

  lemma ReadButtonIsClean(raw: Json)
    ensures ReadButton(raw).Some? ==> CleanButton(ReadButton(raw).value)
  {
    CleanIsClean(Get(raw, Label));
    CleanIsClean(Get(raw, Text));
    CleanIsClean(Get(raw, Value));
    CleanIsClean(Get(raw, CallbackData));
    CleanIsClean(Get(raw, CallbackData2));
    CleanIsClean(Get(raw, Url));
    var first := RecordOf(Get(raw, WebApp));
    CleanIsClean(Get(if first != Null then first else RecordOf(Get(raw, WebApp2)), Url));
    ReadActionIsClean(Get(raw, ActionKey));
    if WordAmong(Get(raw, Style), IsStyle).Some? { WordAmongBack(Get(raw, Style), IsStyle); }
  }

  lemma BuiltField(p: ButtonParts, k: Key)
    ensures Get(BuildButton(p), k) == ButtonField(p, k)
  {
    RecordField(k => ButtonField(p, k), k);
  }

  /** A cleaned string field reads back as itself, and a missing one as nothing. */
  lemma CleanBack(s: Option<string>)
    requires CleanOption(s)
    ensures Clean(OrNull(StrOf(s))) == s
  {
  }

  lemma FieldBack(b: Json, k: Key, s: Option<string>)
    requires CleanOption(s) && Get(b, k) == OrNull(StrOf(s))
    ensures Clean(Get(b, k)) == s
  {
    CleanBack(s);
  }

  lemma ActionBack(a: Option<Action>)
    requires CleanAction(a)
    ensures ReadAction(OrNull(ActionField(a))) == a
  {
    if a.Some? { ReadActionBack(a.value); }
  }

  lemma WebAppBack(b: Json, url: Option<string>)
    requires CleanOption(url) && Get(b, WebApp) == OrNull(WebAppField(url)) && Get(b, WebApp2) == Null
    ensures WebAppUrl(b) == url
  {
    if url.Some? { assert Url in Get(b, WebApp).fields; }
  }

  lemma ReadsTexts(p: ButtonParts)
    requires CleanButton(p)
    ensures var b := BuildButton(p);
            Either(Clean(Get(b, Label)), Clean(Get(b, Text))) == Some(p.caption) &&
            Either(Clean(Get(b, Value)), Either(Clean(Get(b, CallbackData)), Clean(Get(b, CallbackData2))))
            == p.value &&
            Clean(Get(b, Url)) == p.url
  {
    var b := BuildButton(p);
    forall k { BuiltField(p, k); }
    FieldBack(b, Label, Some(p.caption));
    FieldBack(b, Value, p.value);
    FieldBack(b, Url, p.url);
  }

  lemma ReadsAction(p: ButtonParts)
    requires CleanButton(p)
    ensures ReadAction(Get(BuildButton(p), ActionKey)) == p.action
  {
    BuiltField(p, ActionKey);
    ActionBack(p.action);
  }

  lemma ReadsWebApp(p: ButtonParts)
    requires CleanButton(p)
    ensures WebAppUrl(BuildButton(p)) == p.webApp
  {
    BuiltField(p, WebApp);
    BuiltField(p, WebApp2);
    WebAppBack(BuildButton(p), p.webApp);
  }

  lemma ReadsLooks(p: ButtonParts)
    requires CleanButton(p)
    ensures var b := BuildButton(p);
            (if Get(b, Priority).Num? then Some(Get(b, Priority).n) else None) == p.priority &&
            (Get(b, Disabled) == Bool(true)) == p.disabled && (Get(b, Reusable) == Bool(true)) == p.reusable &&
            WordAmong(Get(b, Style), IsStyle) == p.style
  {
    BuiltField(p, Priority);
    BuiltField(p, Disabled);
    BuiltField(p, Reusable);
    BuiltField(p, Style);
  }

  /** A built button reads back as the parts it was built from. */
  lemma ReadButtonBack(p: ButtonParts)
    requires CleanButton(p)
    ensures ReadButton(BuildButton(p)) == Some(p)
  {
    ReadsTexts(p);
    ReadsAction(p);
    ReadsWebApp(p);
    ReadsLooks(p);
  }

  // ---------- options ----------

  datatype OptionParts = OptionParts(caption: string, value: string, action: Option<Action>)

  /** What `_normalize_option` finds in a raw value. */
  function ReadOption(raw: Json): Option<OptionParts> {
    var caption := Either(Clean(Get(raw, Label)), Clean(Get(raw, Text)));
    var action := ReadAction(Get(raw, ActionKey));
    var own := Clean(Get(raw, Value));
    var value := if own.None? && action.Some? then Some(action.value.text) else own;
    if caption.Some? && value.Some? then Some(OptionParts(caption.value, value.value, action)) else None
  }

  function BuildOption(p: OptionParts): Json {
    Obj(Put(map[Label := Str(p.caption), Value := Str(p.value)], ActionKey, ActionField(p.action)))
  }

  /** `_normalize_option` */
  function NormOption(raw: Json): Option<Json> {
    var p := ReadOption(raw);
    if p.Some? then Some(BuildOption(p.value)) else None
  }

  predicate CleanOptionParts(p: OptionParts) {
    IsClean(p.caption) && IsClean(p.value) && CleanAction(p.action)
  }

  lemma ReadOptionIsClean(raw: Json)
    ensures ReadOption(raw).Some? ==> CleanOptionParts(ReadOption(raw).value)
  {
    CleanIsClean(Get(raw, Label));
    CleanIsClean(Get(raw, Text));
    CleanIsClean(Get(raw, Value));
    ReadActionIsClean(Get(raw, ActionKey));
  }

  lemma ReadOptionBack(p: OptionParts)
    requires CleanOptionParts(p)
    ensures ReadOption(BuildOption(p)) == Some(p)
  {
    if p.action.Some? { ReadActionBack(p.action.value); }
  }

  // ---------- lists ----------

  /** `_normalize_list`: the entries that yield something, in order. */
  function FilterMap(items: seq<Json>, f: Json -> Option<Json>): seq<Json> {
    if items == [] then []
    else (if f(items[0]).Some? then [f(items[0]).value] else []) + FilterMap(items[1..], f)
  }

  lemma {:induction false} FilterMapFrom(items: seq<Json>, f: Json -> Option<Json>, y: Json)
    requires y in FilterMap(items, f)
    ensures exists x :: x in items && f(x) == Some(y)
  {
    if f(items[0]) != Some(y) { FilterMapFrom(items[1..], f, y); }
  }

  /** Mapping twice when the second pass leaves every result of the first as it is. */
  lemma {:induction false} FilterMapFixed(items: seq<Json>, f: Json -> Option<Json>)
    requires forall y :: y in items ==> f(y) == Some(y)
    ensures FilterMap(items, f) == items
  {
    if items != [] {
      FilterMapFixed(items[1..], f);
      assert items == [items[0]] + items[1..];
    }
  }

  lemma FilterMapThen(items: seq<Json>, f: Json -> Option<Json>, g: Json -> Option<Json>)
    requires forall x :: x in items && f(x).Some? ==> g(f(x).value) == f(x)
    ensures FilterMap(FilterMap(items, f), g) == FilterMap(items, f)
  {
    forall y | y in FilterMap(items, f) ensures g(y) == Some(y) {
      FilterMapFrom(items, f, y);
    }
    FilterMapFixed(FilterMap(items, f), g);
  }

  function FlatMap(items: seq<Json>, f: Json -> seq<Json>): seq<Json> {
    if items == [] then [] else f(items[0]) + FlatMap(items[1..], f)
  }

  lemma {:induction false} FlatMapFrom(items: seq<Json>, f: Json -> seq<Json>, y: Json)
    requires y in FlatMap(items, f)
    ensures exists x :: x in items && y in f(x)
  {
    if y !in f(items[0]) { FlatMapFrom(items[1..], f, y); }
  }

  lemma {:induction false} FlatMapFixed(items: seq<Json>, f: Json -> seq<Json>)
    requires forall y :: y in items ==> f(y) == [y]
    ensures FlatMap(items, f) == items
  {
    if items != [] {
      FlatMapFixed(items[1..], f);
      assert items == [items[0]] + items[1..];
    }
  }

  // ---------- normalized blocks ----------

  function TextBlock(k: Kind, text: string): Json {
    Obj(TypeField(k)[Text := Str(text)])
  }

  function ButtonsBlock(buttons: Json): Json {
    Obj(TypeField(KButtons)[Buttons := buttons])
  }

  function SelectBlock(options: Json, placeholder: Option<Json>): Json {
    Obj(Put(TypeField(KSelect)[OptionsKey := options], Placeholder, placeholder))
  }

  /** The branch for text of both block normalizers. */
  function NormText(k: Kind, raw: Json): Option<Json> {
    var text := Clean(Get(raw, Text));
    if text.Some? then Some(TextBlock(k, text.value)) else None
  }

  function NormButtons(raw: Json): Option<Json> {
    var buttons := FilterMap(ItemsOf(Get(raw, Buttons)), NormButton);
    if buttons != [] then Some(ButtonsBlock(List(buttons))) else None
  }

  function NormSelect(raw: Json): Option<Json> {
    var options := FilterMap(ItemsOf(Get(raw, OptionsKey)), NormOption);
    if options != [] then Some(SelectBlock(List(options), StrOf(Clean(Get(raw, Placeholder))))) else None
  }

  /** `_normalize_interactive_block` */
  function NormInteractiveBlock(raw: Json): Option<Json> {
    match LooseKind(raw)
    case KText => NormText(KText, raw)
    case KButtons => NormButtons(raw)
    case KSelect => NormSelect(raw)
    case _ => None
  }

  /** `_normalize_presentation_block` */
  function NormPresentationBlock(raw: Json): Option<Json> {
    match LooseKind(raw)
    case KText => NormText(KText, raw)
    case KContext => NormText(KContext, raw)
    case KDivider => Some(Obj(TypeField(KDivider)))
    case KButtons => NormButtons(raw)
    case KSelect => NormSelect(raw)
    case _ => None
  }

  /** `normalize_interactive_reply` */
  function NormInteractive(raw: Json): Option<Json> {
    var blocks := FilterMap(ItemsOf(Get(raw, Blocks)), NormInteractiveBlock);
    if blocks == [] then None else Some(Obj(map[Blocks := List(blocks)]))
  }

  /** `normalize_message_presentation` */
  function NormPresentation(raw: Json): Option<Json> {
    var blocks := FilterMap(ItemsOf(Get(raw, Blocks)), NormPresentationBlock);
    var title := Clean(Get(raw, Title));
    if !raw.Obj? || (title.None? && blocks == []) then None
    else Some(PresentationOf(blocks, title, WordAmong(Get(raw, Tone), IsTone)))
  }

  lemma NormButtonTwice(raw: Json)
    ensures NormButton(raw).Some? ==> NormButton(NormButton(raw).value) == NormButton(raw)
  {
    ReadButtonIsClean(raw);
    if ReadButton(raw).Some? { ReadButtonBack(ReadButton(raw).value); }
  }

  lemma NormOptionTwice(raw: Json)
    ensures NormOption(raw).Some? ==> NormOption(NormOption(raw).value) == NormOption(raw)
  {
    ReadOptionIsClean(raw);
    if ReadOption(raw).Some? { ReadOptionBack(ReadOption(raw).value); }
  }

  lemma NormTextTwice(k: Kind, raw: Json)
    requires k == KText || k == KContext
    requires NormText(k, raw).Some?
    ensures var y := NormText(k, raw).value;
            LooseKind(y) == k && ExactKind(y) == k && NormText(k, y) == Some(y) && Get(y, Text).Str?
  {
    CleanIsClean(Get(raw, Text));
    TypedKinds(NormText(k, raw).value, k);
  }

  lemma NormButtonListTwice(items: seq<Json>)
    ensures FilterMap(FilterMap(items, NormButton), NormButton) == FilterMap(items, NormButton)
  {
    forall x | NormButton(x).Some? { NormButtonTwice(x); }
    FilterMapThen(items, NormButton, NormButton);
  }

  lemma NormOptionListTwice(items: seq<Json>)
    ensures FilterMap(FilterMap(items, NormOption), NormOption) == FilterMap(items, NormOption)
  {
    forall x | NormOption(x).Some? { NormOptionTwice(x); }
    FilterMapThen(items, NormOption, NormOption);
  }

  lemma NormButtonsBack(buttons: seq<Json>)
    requires buttons != [] && FilterMap(buttons, NormButton) == buttons
    ensures var y := ButtonsBlock(List(buttons)); LooseKind(y) == KButtons && NormButtons(y) == Some(y)
  {
    TypedKinds(ButtonsBlock(List(buttons)), KButtons);
  }

  lemma SelectFields(options: Json, placeholder: Option<Json>)
    ensures var y := SelectBlock(options, placeholder);
            Get(y, Type) == Str(Word(KSelect)) && Get(y, OptionsKey) == options &&
            Get(y, Placeholder) == OrNull(placeholder)
  {
  }

  lemma NormSelectBack(options: seq<Json>, hint: Option<string>)
    requires options != [] && FilterMap(options, NormOption) == options && CleanOption(hint)
    ensures var y := SelectBlock(List(options), StrOf(hint)); LooseKind(y) == KSelect && NormSelect(y) == Some(y)
  {
    var y := SelectBlock(List(options), StrOf(hint));
    SelectFields(List(options), StrOf(hint));
    TypedKinds(y, KSelect);
    CleanBack(hint);
  }

  lemma NormButtonsTwice(raw: Json)
    requires NormButtons(raw).Some?
    ensures var y := NormButtons(raw).value; LooseKind(y) == KButtons && NormButtons(y) == Some(y)
  {
    NormButtonListTwice(ItemsOf(Get(raw, Buttons)));
    NormButtonsBack(FilterMap(ItemsOf(Get(raw, Buttons)), NormButton));
  }

  lemma NormSelectTwice(raw: Json)
    requires NormSelect(raw).Some?
    ensures var y := NormSelect(raw).value; LooseKind(y) == KSelect && NormSelect(y) == Some(y)
  {
    NormOptionListTwice(ItemsOf(Get(raw, OptionsKey)));
    CleanIsClean(Get(raw, Placeholder));
    NormSelectBack(FilterMap(ItemsOf(Get(raw, OptionsKey)), NormOption), Clean(Get(raw, Placeholder)));
  }

  lemma NormBlockTwice(raw: Json)
    requires NormPresentationBlock(raw).Some?
    ensures NormPresentationBlock(NormPresentationBlock(raw).value) == NormPresentationBlock(raw)
  {
    match LooseKind(raw)
    case KText => NormTextTwice(KText, raw);
    case KContext => NormTextTwice(KContext, raw);
    case KDivider => TypedKinds(Obj(TypeField(KDivider)), KDivider);
    case KButtons => NormButtonsTwice(raw);
    case KSelect => NormSelectTwice(raw);
  }

  /** A presentation record of normal parts. */
  function PresentationOf(blocks: seq<Json>, title: Option<string>, tone: Option<string>): Json {
    Obj(Put(Put(map[Blocks := List(blocks)], Title, StrOf(title)), Tone, StrOf(tone)))
  }

  lemma PresentationFields(blocks: seq<Json>, title: Option<string>, tone: Option<string>)
    ensures var p := PresentationOf(blocks, title, tone);
            Get(p, Blocks) == List(blocks) && Get(p, Title) == OrNull(StrOf(title)) &&
            Get(p, Tone) == OrNull(StrOf(tone))
  {
  }

  lemma NormBlockList(items: seq<Json>)
    ensures var blocks := FilterMap(items, NormPresentationBlock);
            FilterMap(blocks, NormPresentationBlock) == blocks &&
            forall b :: b in blocks ==> NormPresentationBlock(b) == Some(b)
  {
    forall x | NormPresentationBlock(x).Some? { NormBlockTwice(x); }
    FilterMapThen(items, NormPresentationBlock, NormPresentationBlock);
    forall b | b in FilterMap(items, NormPresentationBlock) ensures NormPresentationBlock(b) == Some(b) {
      FilterMapFrom(items, NormPresentationBlock, b);
    }
  }

  /** Normalizing a presentation a second time changes nothing, and all its blocks are
      normal ones. */
  lemma NormPresentationTwice(raw: Json)
    requires NormPresentation(raw).Some?
    ensures NormPresentation(NormPresentation(raw).value) == NormPresentation(raw)
    ensures forall b :: b in ItemsOf(Get(NormPresentation(raw).value, Blocks)) ==> NormPresentationBlock(b) == Some(b)
  {
    var blocks := FilterMap(ItemsOf(Get(raw, Blocks)), NormPresentationBlock);
    var title, tone := Clean(Get(raw, Title)), WordAmong(Get(raw, Tone), IsTone);
    NormBlockList(ItemsOf(Get(raw, Blocks)));
    PresentationFields(blocks, title, tone);
    CleanIsClean(Get(raw, Title));
    CleanBack(title);
    if tone.Some? { WordAmongBack(Get(raw, Tone), IsTone); }
  }

  // ---------- conversions ----------

  /** `a or b` on raw values. */
  function OrElse(a: Json, b: Json): Json {
    if IsTrue(a) then a else b
  }

  /** `record.get(key, "")` */
  function GetOrEmpty(v: Json, k: Key): Json {
    if v.Obj? && k in v.fields then v.fields[k] else Str("")
  }

  /** A value to copy when it is not `None`. */
  function NotNull(v: Json): Option<Json> {
    if v == Null then None else Some(v)
  }

  /** The value of a converted button: its own, or else that of its action. */
  function ButtonValue(button: Json): Json {
    var fromAction := ActionValue(Get(button, ActionKey));
    if Get(button, Value) != Null then Get(button, Value)
    else if fromAction.Str? then fromAction
    else Null
  }

  /** What converting a button puts under a key, `Null` for nothing. */
  function ConvertField(button: Json, k: Key): Json {
    match k
    case Label => GetOrEmpty(button, Label)
    case Value => ButtonValue(button)
    case WebApp => OrElse(Get(button, WebApp), Get(button, WebApp2))
    case Disabled => Flag(Get(button, Disabled) == Bool(true))
    case Reusable => Flag(Get(button, Reusable) == Bool(true))
    case _ => Get(button, k)
  }

  /** Something happens when the button is pressed. */
  predicate HasEffect(button: Json) {
    IsTrue(Get(button, ActionKey)) || IsTrue(Get(button, Value)) || IsTrue(Get(button, Url)) ||
    IsTrue(Get(button, WebApp)) || IsTrue(Get(button, WebApp2))
  }

  /** One button of `presentation_to_interactive_reply`; a button that does nothing is dropped. */
  function ConvertButton(button: Json): Option<Json> {
    if HasEffect(button) then
      Some(Record(k => ConvertField(button, k)))
    else None
  }

  /** One option of `presentation_to_interactive_reply`. */
  function ConvertOption(option: Json): Option<Json> {
    if option.Obj? then
      var value := OrElse(ControlValue(option), GetOrEmpty(option, Value));
      Some(Obj(Put(map[Label := GetOrEmpty(option, Label), Value := value], ActionKey,
                   NotNull(Get(option, ActionKey)))))
    else None
  }

  /** One block of `presentation_to_interactive_reply`. */
  function ConvertBlock(block: Json): seq<Json> {
    match ExactKind(block)
    case KText => if Get(block, Text).Str? then [TextBlock(KText, Get(block, Text).s)] else []
    case KContext => if Get(block, Text).Str? then [TextBlock(KText, Get(block, Text).s)] else []
    case KButtons =>
      var buttons := FilterMap(ItemsOf(Get(block, Buttons)), ConvertButton);
      if buttons != [] then [ButtonsBlock(List(buttons))] else []
    case KSelect =>
      var options := FilterMap(ItemsOf(Get(block, OptionsKey)), ConvertOption);
      [SelectBlock(List(options), NotNull(Get(block, Placeholder)))]
    case _ => []
  }

  function TitleBlocks(presentation: Json): seq<Json> {
    var title := Get(presentation, Title);
    if title.Str? && title.s != "" then [TextBlock(KText, title.s)] else []
  }

  function Reply(blocks: seq<Json>): Option<Json> {
    if blocks == [] then None else Some(Obj(map[Blocks := List(blocks)]))
  }

  /** `presentation_to_interactive_reply` */
  function ToInteractive(presentation: Json): Option<Json> {
    Reply(TitleBlocks(presentation) + FlatMap(ItemsOf(Get(presentation, Blocks)), ConvertBlock))
  }

  predicate IsControl(block: Json) {
    ExactKind(block) == KButtons || ExactKind(block) == KSelect
  }

  function KeepControl(block: Json): seq<Json> {
    if IsControl(block) then [block] else []
  }

  /** `presentation_to_interactive_controls_reply` */
  function ToControls(presentation: Json): Option<Json> {
    ToInteractive(Obj(map[Blocks := List(FlatMap(ItemsOf(Get(presentation, Blocks)), KeepControl))]))
  }

  /** One block of `interactive_reply_to_presentation`. */
  function BackBlock(block: Json): seq<Json> {
    match ExactKind(block)
    case KText => if Get(block, Text).Str? then [TextBlock(KText, Get(block, Text).s)] else []
    case KButtons => [ButtonsBlock(OrElse(Get(block, Buttons), List([])))]
    case KSelect => [SelectBlock(OrElse(Get(block, OptionsKey), List([])), NotNull(Get(block, Placeholder)))]
    case _ => []
  }

  /** `interactive_reply_to_presentation` */
  function ToPresentation(interactive: Json): Option<Json> {
    Reply(FlatMap(ItemsOf(Get(interactive, Blocks)), BackBlock))
  }

  // ---------- the conversions on normal blocks ----------

  /** The parts of a button after conversion: the value is filled in from the action. */
  function Filled(p: ButtonParts): ButtonParts {
    p.(value := if p.value.None? then TextOf(p.action) else p.value)
  }

  predicate DoesSomething(p: ButtonParts) {
    p.action.Some? || p.value.Some? || p.url.Some? || p.webApp.Some?
  }

  lemma ConvertBuilt(p: ButtonParts)
    requires CleanButton(p)
    ensures ConvertButton(BuildButton(p)) == if DoesSomething(p) then Some(BuildButton(Filled(p))) else None
  {
    var b := BuildButton(p);
    ConvertEffect(p);
    if DoesSomething(p) {
      forall k | k in BUTTON_KEYS ensures ConvertField(b, k) == ButtonField(Filled(p), k) { ConvertedField(p, k); }
      SameRecord(k => ConvertField(b, k), k => ButtonField(Filled(p), k));
    }
  }

  lemma TextIsTrue(s: Option<string>)
    requires CleanOption(s)
    ensures IsTrue(OrNull(StrOf(s))) == s.Some?
  {
  }

  lemma TextEffects(p: ButtonParts)
    requires CleanButton(p)
    ensures var b := BuildButton(p); IsTrue(Get(b, Value)) == p.value.Some? && IsTrue(Get(b, Url)) == p.url.Some?
  {
    BuiltField(p, Value);
    BuiltField(p, Url);
    TextIsTrue(p.value);
    TextIsTrue(p.url);
  }

  lemma TargetEffects(p: ButtonParts)
    ensures var b := BuildButton(p);
            && IsTrue(Get(b, ActionKey)) == p.action.Some? && IsTrue(Get(b, WebApp)) == p.webApp.Some?
            && !IsTrue(Get(b, WebApp2))
  {
    BuiltField(p, ActionKey);
    BuiltField(p, WebApp);
    BuiltField(p, WebApp2);
    ActionIsTrue(p.action);
    WebAppIsTrue(p.webApp);
  }

  lemma ConvertEffect(p: ButtonParts)
    requires CleanButton(p)
    ensures HasEffect(BuildButton(p)) == DoesSomething(p)
  {
    TextEffects(p);
    TargetEffects(p);
  }

  lemma ConvertedField(p: ButtonParts, k: Key)
    requires CleanButton(p) && k in BUTTON_KEYS
    ensures ConvertField(BuildButton(p), k) == ButtonField(Filled(p), k)
  {
    if k == Value {
      ConvertedOwnValue(p);
    } else if k == WebApp {
      ConvertedOwnWebApp(p);
    } else {
      ConvertedOwnPlain(p, k);
    }
  }

  lemma ConvertedOwnPlain(p: ButtonParts, k: Key)
    requires k in BUTTON_KEYS - {Value, WebApp}
    ensures ConvertField(BuildButton(p), k) == ButtonField(Filled(p), k)
  {
    BuiltField(p, k);
    ConvertedPlain(BuildButton(p), p, k);
    assert ButtonField(Filled(p), k) == ButtonField(p, k);
  }

  lemma ConvertedOwnValue(p: ButtonParts)
    requires CleanAction(p.action)
    ensures ConvertField(BuildButton(p), Value) == ButtonField(Filled(p), Value)
  {
    BuiltField(p, Value);
    BuiltField(p, ActionKey);
    ConvertedValue(BuildButton(p), p);
  }

  lemma ConvertedOwnWebApp(p: ButtonParts)
    ensures ConvertField(BuildButton(p), WebApp) == ButtonField(Filled(p), WebApp)
  {
    BuiltField(p, WebApp);
    BuiltField(p, WebApp2);
    ConvertedWebApp(BuildButton(p), p.webApp);
  }

  lemma ConvertedPlain(b: Json, p: ButtonParts, k: Key)
    requires k in BUTTON_KEYS - {Value, WebApp} && Get(b, k) == ButtonField(p, k)
    ensures ConvertField(b, k) == ButtonField(p, k)
  {
  }

  lemma ConvertedWebApp(b: Json, url: Option<string>)
    requires Get(b, WebApp) == OrNull(WebAppField(url)) && Get(b, WebApp2) == Null
    ensures ConvertField(b, WebApp) == OrNull(WebAppField(url))
  {
    WebAppIsTrue(url);
  }

  lemma ConvertedValue(b: Json, p: ButtonParts)
    requires CleanAction(p.action)
    requires Get(b, Value) == OrNull(StrOf(p.value)) && Get(b, ActionKey) == OrNull(ActionField(p.action))
    ensures ButtonValue(b) == OrNull(StrOf(Filled(p).value))
  {
    ActionGives(p.action);
  }

  lemma WebAppIsTrue(url: Option<string>)
    ensures IsTrue(OrNull(WebAppField(url))) == url.Some?
  {
    if url.Some? { assert Url in WebAppField(url).value.fields; }
  }

  lemma ActionIsTrue(a: Option<Action>)
    ensures IsTrue(OrNull(ActionField(a))) == a.Some?
  {
    if a.Some? { assert Type in ActionJson(a.value).fields; }
  }

  lemma ActionGives(a: Option<Action>)
    requires CleanAction(a)
    ensures ActionValue(OrNull(ActionField(a))) == OrNull(StrOf(TextOf(a)))
  {
    if a.Some? { ReadActionBack(a.value); }
  }

  function TextOf(a: Option<Action>): Option<string> {
    if a.Some? then Some(a.value.text) else None
  }

  /** A converted normal button is a normal button, and converting it again changes nothing. */
  lemma ConvertButtonTwice(b: Json)
    requires NormButton(b) == Some(b) && ConvertButton(b).Some?
    ensures var y := ConvertButton(b).value; ConvertButton(y) == Some(y) && NormButton(y) == Some(y)
  {
    ReadButtonIsClean(b);
    var p := ReadButton(b).value;
    ConvertBuilt(p);
    ConvertBuilt(Filled(p));
    ReadButtonBack(Filled(p));
  }

  /** The parts of an option after conversion: the value of its action goes first. */
  function Chosen(p: OptionParts): OptionParts {
    p.(value := if p.action.Some? then p.action.value.text else p.value)
  }

  lemma OptionFields(p: OptionParts)
    ensures var o := BuildOption(p);
            Get(o, Label) == Str(p.caption) && Get(o, Value) == Str(p.value) &&
            Get(o, ActionKey) == OrNull(ActionField(p.action))
    ensures GetOrEmpty(BuildOption(p), Label) == Str(p.caption)
  {
  }

  lemma ConvertBuiltOption(p: OptionParts)
    requires CleanOptionParts(p)
    ensures ConvertOption(BuildOption(p)) == Some(BuildOption(Chosen(p)))
  {
    OptionFields(p);
    ActionGives(p.action);
    assert ControlValue(BuildOption(p)) == Str(Chosen(p).value);
  }

  lemma ConvertOptionTwice(o: Json)
    requires NormOption(o) == Some(o)
    ensures ConvertOption(o).Some?
    ensures var y := ConvertOption(o).value; ConvertOption(y) == Some(y) && NormOption(y) == Some(y)
  {
    ReadOptionIsClean(o);
    var p := ReadOption(o).value;
    ConvertBuiltOption(p);
    ConvertBuiltOption(Chosen(p));
    ReadOptionBack(Chosen(p));
  }

  /** A block that every conversion and the normalizer of replies leave as it is. */
  predicate Settled(y: Json) {
    ConvertBlock(y) == [y] && BackBlock(y) == [y] && NormInteractiveBlock(y) == Some(y)
  }

  lemma ConvertedTextSettled(b: Json)
    requires NormPresentationBlock(b) == Some(b) && LooseKind(b) in {KText, KContext}
    ensures ConvertBlock(b) == [TextBlock(KText, Get(b, Text).s)] && Settled(ConvertBlock(b)[0])
  {
    NormTextTwice(LooseKind(b), b);
    NormTextTwice(KText, b);
  }

  /** Normal buttons convert to normal buttons that convert to themselves. */
  lemma ConvertButtonList(items: seq<Json>)
    requires FilterMap(items, NormButton) == items
    ensures var y := FilterMap(items, ConvertButton); FilterMap(y, ConvertButton) == y && FilterMap(y, NormButton) == y
  {
    var buttons := FilterMap(items, ConvertButton);
    forall y | y in buttons ensures ConvertButton(y) == Some(y) && NormButton(y) == Some(y) {
      FilterMapFrom(items, ConvertButton, y);
      var x :| x in items && ConvertButton(x) == Some(y);
      FilterMapFrom(items, NormButton, x);
      var w :| w in items && NormButton(w) == Some(x);
      NormButtonTwice(w);
      ConvertButtonTwice(x);
    }
    FilterMapFixed(buttons, ConvertButton);
    FilterMapFixed(buttons, NormButton);
  }

  lemma ConvertOptionList(items: seq<Json>)
    requires FilterMap(items, NormOption) == items
    ensures var y := FilterMap(items, ConvertOption); FilterMap(y, ConvertOption) == y && FilterMap(y, NormOption) == y
    ensures |FilterMap(items, ConvertOption)| == |items|
  {
    var options := FilterMap(items, ConvertOption);
    forall x | x in items ensures NormOption(x) == Some(x) {
      FilterMapFrom(items, NormOption, x);
      var w :| w in items && NormOption(w) == Some(x);
      NormOptionTwice(w);
    }
    forall y | y in options ensures ConvertOption(y) == Some(y) && NormOption(y) == Some(y) {
      FilterMapFrom(items, ConvertOption, y);
      var x :| x in items && ConvertOption(x) == Some(y);
      ConvertOptionTwice(x);
    }
    FilterMapFixed(options, ConvertOption);
    FilterMapFixed(options, NormOption);
    forall x | x in items ensures ConvertOption(x).Some? { ConvertOptionTwice(x); }
    FilterMapAll(items, ConvertOption);
  }

  lemma {:induction false} FilterMapAll(items: seq<Json>, f: Json -> Option<Json>)
    requires forall x :: x in items ==> f(x).Some?
    ensures |FilterMap(items, f)| == |items|
  {
    if items != [] { FilterMapAll(items[1..], f); }
  }

  lemma ButtonsSettled(buttons: seq<Json>)
    requires buttons != [] && FilterMap(buttons, ConvertButton) == buttons && FilterMap(buttons, NormButton) == buttons
    ensures Settled(ButtonsBlock(List(buttons)))
  {
    NormButtonsBack(buttons);
    ButtonsConvert(buttons);
    ButtonsGoBack(buttons);
  }

  lemma ButtonsConvert(buttons: seq<Json>)
    requires buttons != [] && FilterMap(buttons, ConvertButton) == buttons
    ensures var y := ButtonsBlock(List(buttons)); ConvertBlock(y) == [y]
  {
    TypedKinds(ButtonsBlock(List(buttons)), KButtons);
  }

  lemma ButtonsGoBack(buttons: seq<Json>)
    requires buttons != []
    ensures var y := ButtonsBlock(List(buttons)); BackBlock(y) == [y]
  {
    TypedKinds(ButtonsBlock(List(buttons)), KButtons);
  }

  lemma SelectSettled(options: seq<Json>, hint: Option<string>)
    requires options != [] && FilterMap(options, ConvertOption) == options && FilterMap(options, NormOption) == options
    requires CleanOption(hint)
    ensures Settled(SelectBlock(List(options), StrOf(hint)))
  {
    var y := SelectBlock(List(options), StrOf(hint));
    assert ConvertBlock(y) == [y] by { SelectConverts(options, hint); }
    assert BackBlock(y) == [y] by { SelectGoesBack(options, hint); }
    assert NormInteractiveBlock(y) == Some(y) by { NormSelectBack(options, hint); }
  }

  lemma SelectConverts(options: seq<Json>, hint: Option<string>)
    requires FilterMap(options, ConvertOption) == options
    ensures var y := SelectBlock(List(options), StrOf(hint)); ConvertBlock(y) == [y]
  {
    SelectFields(List(options), StrOf(hint));
    TypedKinds(SelectBlock(List(options), StrOf(hint)), KSelect);
  }

  lemma SelectGoesBack(options: seq<Json>, hint: Option<string>)
    requires options != []
    ensures var y := SelectBlock(List(options), StrOf(hint)); BackBlock(y) == [y]
  {
    SelectFields(List(options), StrOf(hint));
    TypedKinds(SelectBlock(List(options), StrOf(hint)), KSelect);
  }

  lemma ConvertedButtonsSettled(b: Json)
    requires NormPresentationBlock(b) == Some(b) && LooseKind(b) == KButtons
    ensures forall y :: y in ConvertBlock(b) ==> Settled(y)
  {
    var items := ItemsOf(Get(b, Buttons));
    NormalButtons(b);
    ConvertButtonList(items);
    if FilterMap(items, ConvertButton) != [] { ButtonsSettled(FilterMap(items, ConvertButton)); }
  }

  /** What a normal buttons block looks like. */
  lemma NormalButtons(b: Json)
    requires NormPresentationBlock(b) == Some(b) && LooseKind(b) == KButtons
    ensures var items := ItemsOf(Get(b, Buttons)); FilterMap(items, NormButton) == items
    ensures ExactKind(b) == KButtons
  {
    var items := FilterMap(ItemsOf(Get(b, Buttons)), NormButton);
    assert b == ButtonsBlock(List(items));
    TypedKinds(b, KButtons);
  }

  /** What a normal select block looks like. */
  lemma NormalSelect(b: Json)
    requires NormPresentationBlock(b) == Some(b) && LooseKind(b) == KSelect
    ensures var items := ItemsOf(Get(b, OptionsKey)); items != [] && FilterMap(items, NormOption) == items
    ensures ExactKind(b) == KSelect && Get(b, Placeholder) == OrNull(StrOf(Clean(Get(b, Placeholder))))
  {
    var items := FilterMap(ItemsOf(Get(b, OptionsKey)), NormOption);
    var hint := Clean(Get(b, Placeholder));
    assert b == SelectBlock(List(items), StrOf(hint));
    SelectFields(List(items), StrOf(hint));
    TypedKinds(b, KSelect);
  }

  lemma ConvertedSelectSettled(b: Json)
    requires NormPresentationBlock(b) == Some(b) && LooseKind(b) == KSelect
    ensures forall y :: y in ConvertBlock(b) ==> Settled(y)
  {
    var items, hint := ItemsOf(Get(b, OptionsKey)), Clean(Get(b, Placeholder));
    NormalSelect(b);
    ConvertOptionList(items);
    CleanIsClean(Get(b, Placeholder));
    SelectSettled(FilterMap(items, ConvertOption), hint);
    assert NotNull(Get(b, Placeholder)) == StrOf(hint);
  }

  lemma ConvertedSettled(b: Json)
    requires NormPresentationBlock(b) == Some(b)
    ensures forall y :: y in ConvertBlock(b) ==> Settled(y)
  {
    match LooseKind(b)
    case KText => ConvertedTextSettled(b);
    case KContext => ConvertedTextSettled(b);
    case KDivider => TypedKinds(b, KDivider);
    case KButtons => ConvertedButtonsSettled(b);
    case KSelect => ConvertedSelectSettled(b);
  }

  // ---------- theorems ----------

  /** From any raw value: normalize it as a presentation and convert it to a reply. That
      reply is already normal, converting it back gives a presentation with the very same
      blocks, and converting that once more gives the same reply again. */
  lemma ConversionSettles(raw: Json)
    requires NormPresentation(raw).Some? && ToInteractive(NormPresentation(raw).value).Some?
    ensures var r := ToInteractive(NormPresentation(raw).value).value;
            NormInteractive(r) == Some(r) && ToPresentation(r) == Some(r) && ToInteractive(r) == Some(r)
  {
    var p := NormPresentation(raw).value;
    var blocks := ItemsOf(Get(p, Blocks));
    var all := TitleBlocks(p) + FlatMap(blocks, ConvertBlock);
    NormPresentationTwice(raw);
    forall y | y in all ensures Settled(y) {
      if y in TitleBlocks(p) {
        TitleSettled(raw);
      } else {
        FlatMapFrom(blocks, ConvertBlock, y);
        var x :| x in blocks && y in ConvertBlock(x);
        ConvertedSettled(x);
      }
    }
    ReplySettled(all);
  }

  /** A reply of settled blocks is a fixed point of the normalizer and of both conversions. */
  lemma ReplySettled(all: seq<Json>)
    requires all != [] && forall y :: y in all ==> Settled(y)
    ensures var r := Reply(all).value;
            NormInteractive(r) == Some(r) && ToPresentation(r) == Some(r) && ToInteractive(r) == Some(r)
  {
    FlatMapFixed(all, ConvertBlock);
    FlatMapFixed(all, BackBlock);
    FilterMapFixed(all, NormInteractiveBlock);
    var r := Reply(all).value;
    assert Get(r, Blocks) == List(all) && Get(r, Title) == Null;
    assert TitleBlocks(r) + all == all;
  }

  lemma TitleSettled(raw: Json)
    requires NormPresentation(raw).Some?
    ensures forall y :: y in TitleBlocks(NormPresentation(raw).value) ==> Settled(y)
  {
    var title := Clean(Get(raw, Title));
    CleanIsClean(Get(raw, Title));
    if title.Some? { TypedKinds(TextBlock(KText, title.value), KText); }
  }

  // ---------- controls only ----------

  lemma {:induction false} FlatMapAppend(a: seq<Json>, b: seq<Json>, f: Json -> seq<Json>)
    ensures FlatMap(a + b, f) == FlatMap(a, f) + FlatMap(b, f)
  {
    if a == [] {
      assert a + b == b;
    } else {
      FlatMapAppend(a[1..], b, f);
      assert (a + b)[0] == a[0] && (a + b)[1..] == a[1..] + b;
      assert f(a[0]) + (FlatMap(a[1..], f) + FlatMap(b, f)) == (f(a[0]) + FlatMap(a[1..], f)) + FlatMap(b, f);
    }
  }

  lemma FlatMapOne(x: Json, f: Json -> seq<Json>)
    ensures FlatMap([x], f) == f(x)
  {
    assert FlatMap([x][1..], f) == [];
  }

  /** Only controls convert to controls. */
  lemma ConvertKeepsKind(b: Json)
    ensures FlatMap(KeepControl(b), ConvertBlock) == FlatMap(ConvertBlock(b), KeepControl)
  {
    if ConvertBlock(b) != [] {
      var y := ConvertBlock(b)[0];
      assert Get(y, Type) == Str(Word(if IsControl(b) then ExactKind(b) else KText));
      TypedKinds(y, if IsControl(b) then ExactKind(b) else KText);
      FlatMapOne(y, KeepControl);
    }
    if IsControl(b) { FlatMapOne(b, ConvertBlock); }
  }

  lemma {:induction false} KeepThenConvert(items: seq<Json>)
    ensures FlatMap(FlatMap(items, KeepControl), ConvertBlock) == FlatMap(FlatMap(items, ConvertBlock), KeepControl)
  {
    if items != [] {
      ConvertKeepsKind(items[0]);
      KeepThenConvert(items[1..]);
      FlatMapAppend(KeepControl(items[0]), FlatMap(items[1..], KeepControl), ConvertBlock);
      FlatMapAppend(ConvertBlock(items[0]), FlatMap(items[1..], ConvertBlock), KeepControl);
    }
  }

  function BlocksOf(reply: Option<Json>): seq<Json> {
    if reply.Some? then ItemsOf(Get(reply.value, Blocks)) else []
  }

  /** For every presentation, the controls-only reply has exactly the button and select
      blocks of the full reply, in order, and there is none just when those are none. */
  lemma ControlsExactly(p: Json)
    ensures ToControls(p) == Reply(FlatMap(BlocksOf(ToInteractive(p)), KeepControl))
  {
    var items, title := ItemsOf(Get(p, Blocks)), TitleBlocks(p);
    KeepThenConvert(items);
    FlatMapAppend(title, FlatMap(items, ConvertBlock), KeepControl);
    if title != [] {
      TypedKinds(title[0], KText);
      FlatMapOne(title[0], KeepControl);
    }
    var kept := Obj(map[Blocks := List(FlatMap(items, KeepControl))]);
    assert Get(kept, Blocks) == List(FlatMap(items, KeepControl)) && TitleBlocks(kept) == [];
    var all := title + FlatMap(items, ConvertBlock);
    assert BlocksOf(Reply(all)) == all;
  }

  // ---------- when nothing is left ----------

  /** A block that leaves no trace in a reply: a divider, or buttons that all do nothing. */
  predicate Silent(b: Json) {
    ExactKind(b) == KDivider ||
    (ExactKind(b) == KButtons && forall x :: x in ItemsOf(Get(b, Buttons)) ==> !HasEffect(x))
  }

  lemma {:induction false} FilterMapEmpty(items: seq<Json>, f: Json -> Option<Json>)
    ensures FilterMap(items, f) == [] <==> forall x :: x in items ==> f(x).None?
  {
    if items != [] { FilterMapEmpty(items[1..], f); }
  }

  lemma {:induction false} FlatMapEmpty(items: seq<Json>, f: Json -> seq<Json>)
    ensures FlatMap(items, f) == [] <==> forall x :: x in items ==> f(x) == []
  {
    if items != [] { FlatMapEmpty(items[1..], f); }
  }

  lemma SilentExactly(b: Json)
    requires NormPresentationBlock(b) == Some(b)
    ensures ConvertBlock(b) == [] <==> Silent(b)
  {
    match LooseKind(b)
    case KText => ConvertedTextSettled(b); NormTextTwice(KText, b);
    case KContext => ConvertedTextSettled(b); NormTextTwice(KContext, b);
    case KDivider => TypedKinds(b, KDivider);
    case KButtons => NormalButtons(b); FilterMapEmpty(ItemsOf(Get(b, Buttons)), ConvertButton);
    case KSelect => NormalSelect(b);
  }

  /** A normalized presentation converts to no reply exactly when it has no title and
      only silent blocks. */
  lemma NoReplyExactly(raw: Json)
    requires NormPresentation(raw).Some?
    ensures var p := NormPresentation(raw).value;
            ToInteractive(p).None? <==>
              Get(p, Title) == Null && forall b :: b in ItemsOf(Get(p, Blocks)) ==> Silent(b)
  {
    var p := NormPresentation(raw).value;
    var blocks := ItemsOf(Get(p, Blocks));
    NormPresentationTwice(raw);
    PresentationFields(FilterMap(ItemsOf(Get(raw, Blocks)), NormPresentationBlock),
                       Clean(Get(raw, Title)), WordAmong(Get(raw, Tone), IsTone));
    CleanIsClean(Get(raw, Title));
    forall b | b in blocks ensures ConvertBlock(b) == [] <==> Silent(b) { SilentExactly(b); }
    FlatMapEmpty(blocks, ConvertBlock);
  }
}
