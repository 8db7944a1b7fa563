/** What the payload normalizers and conversions make of a raw value, field by field and by
    the words of the dictionaries, without the functions that compute it. */
module PayloadFields {
  import opened Options
  import opened Texts
  import opened Payload

  // ---------- texts ----------

  /** `v` is a string that is `s` but for the spaces at its ends; `s` is not empty. */
  ghost predicate IsText(v: Json, s: string) {
    s != "" && Trimmed(s) && exists a, b :: AllSpaces(a) && AllSpaces(b) && v == Str(a + s + b)
  }

  lemma {:induction false} LeftSpaces(s: string) returns (a: string)
    ensures AllSpaces(a) && s == a + StripLeft(s)
  {
    if s != "" && IsSpace(s[0]) {
      var rest := LeftSpaces(s[1..]);
      a := [s[0]] + rest;
      assert s == [s[0]] + s[1..];
    } else {
      a := "";
    }
  }

  lemma {:induction false} RightSpaces(s: string) returns (b: string)
    ensures AllSpaces(b) && s == StripRight(s) + b
  {
    if s != "" && IsSpace(s[|s| - 1]) {
      var rest := RightSpaces(s[..|s| - 1]);
      b := rest + [s[|s| - 1]];
      assert s == s[..|s| - 1] + [s[|s| - 1]];
    } else {
      b := "";
    }
  }

  lemma CleanedIsText(v: Json, s: string)
    requires Clean(v) == Some(s)
    ensures IsText(v, s)
  {
    var a := LeftSpaces(v.s);
    var b := RightSpaces(StripLeft(v.s));
    assert v.s == a + s + b;
    StripIdempotent(v.s);
  }

  /** Cleaning finds the text of a value, if it has one. */
  lemma CleanMeans(v: Json, s: string)
    ensures Clean(v) == Some(s) <==> IsText(v, s)
  {
    if Clean(v) == Some(s) { CleanedIsText(v, s); }
    forall a, b | s != "" && Trimmed(s) && AllSpaces(a) && AllSpaces(b) && v == Str(a + s + b)
      ensures Clean(v) == Some(s)
    {
      StripMeans(a, s, b);
    }
  }

  /** Lower-casing, character by character. */
  lemma LowerMeans(s: string)
    ensures |Lower(s)| == |s|
    ensures forall i :: 0 <= i < |s| ==>
      if s[i] in "ABCDEFGHIJKLMNOPQRSTUVWXYZ" then Lower(s)[i] as int == s[i] as int + 32
      else if s[i] == '\U{212a}' then Lower(s)[i] == 'k' else Lower(s)[i] == s[i]
  {
    assert forall c: char :: c in "ABCDEFGHIJKLMNOPQRSTUVWXYZ" <==> 'A' <= c <= 'Z';
  }

  /** The word of a raw value: its text in lower case. */
  predicate HasWord(v: Json, w: string) {
    Clean(v).Some? && Lower(Clean(v).value) == w
  }

  // ---------- fields ----------

  /** The record holds the text under the key, or nothing there when there is none. */
  predicate Holds(b: Json, k: Key, s: Option<string>) {
    b.Obj? && if s == None then k !in b.fields else k in b.fields && b.fields[k] == Str(s.value)
  }

  /** The record holds the first of these texts of the raw record that there is. */
  predicate HoldsFirst(b: Json, k: Key, raw: Json, first: Key, second: Key) {
    && (Clean(Get(raw, first)).Some? ==> Holds(b, k, Clean(Get(raw, first))))
    && (Clean(Get(raw, first)) == None ==> Holds(b, k, Clean(Get(raw, second))))
  }

  /** `v` is the normal form of a raw action: a command or a callback with its text. */
  predicate IsAction(v: Json, raw: Json) {
    || (HasWord(Get(raw, Type), "command") && Clean(Get(raw, Command)).Some?
        && v == Obj(map[Type := Str("command"), Command := Str(Clean(Get(raw, Command)).value)]))
    || (HasWord(Get(raw, Type), "callback") && Clean(Get(raw, Value)).Some?
        && v == Obj(map[Type := Str("callback"), Value := Str(Clean(Get(raw, Value)).value)]))
  }

  predicate NoAction(raw: Json) {
    && !(HasWord(Get(raw, Type), "command") && Clean(Get(raw, Command)).Some?)
    && !(HasWord(Get(raw, Type), "callback") && Clean(Get(raw, Value)).Some?)
  }

  predicate HoldsAction(b: Json, raw: Json) {
    b.Obj? && if NoAction(raw) then ActionKey !in b.fields
              else ActionKey in b.fields && IsAction(b.fields[ActionKey], raw)
  }

  lemma KindMeans(w: string)
    ensures KindOfWord(w) == KCommand <==> w == "command"
    ensures KindOfWord(w) == KCallback <==> w == "callback"
    ensures KindOfWord(w) == KText <==> w == "text"
    ensures KindOfWord(w) == KContext <==> w == "context"
    ensures KindOfWord(w) == KDivider <==> w == "divider"
    ensures KindOfWord(w) == KButtons <==> w == "buttons"
    ensures KindOfWord(w) == KSelect <==> w == "select"
  {
    assert "context"[0] == 'c' && "divider"[0] == 'd' && "buttons"[0] == 'b' && "command"[0] == 'c';
    assert "context"[2] == 'n' && "command"[2] == 'm';
  }

  lemma ActionMeans(raw: Json)
    ensures ReadAction(raw) == None <==> NoAction(raw)
    ensures ReadAction(raw).Some? ==> IsAction(ActionJson(ReadAction(raw).value), raw)
  {
    if CleanLower(Get(raw, Type)).Some? { KindMeans(CleanLower(Get(raw, Type)).value); }
  }

  // ---------- buttons and options ----------

  predicate IsRecord(v: Json) {
    v.Obj? && v.fields != map[]
  }

  /** The address of the first web app record that is there, if it has one. */
  function AppUrl(raw: Json): Option<string> {
    if IsRecord(Get(raw, WebApp)) then Clean(Get(Get(raw, WebApp), Url))
    else if IsRecord(Get(raw, WebApp2)) then Clean(Get(Get(raw, WebApp2), Url))
    else None
  }

  /** The record holds the flag exactly when it is literally true in the raw one. */
  predicate HoldsFlag(b: Json, k: Key, raw: Json) {
    b.Obj? && if Get(raw, k) == Bool(true) then k in b.fields && b.fields[k] == Bool(true) else k !in b.fields
  }

  /** The record holds the word of the raw one in lower case, if it is an allowed one. */
  predicate HoldsWord(b: Json, k: Key, raw: Json, allowed: set<string>) {
    && b.Obj?
    && (k in b.fields <==> Clean(Get(raw, k)).Some? && Lower(Clean(Get(raw, k)).value) in allowed)
    && (k in b.fields ==> b.fields[k] == Str(Lower(Clean(Get(raw, k)).value)))
  }

  predicate HoldsApp(b: Json, raw: Json) {
    && b.Obj? && (WebApp in b.fields <==> AppUrl(raw).Some?)
    && (WebApp in b.fields ==> b.fields[WebApp] == Obj(map[Url := Str(AppUrl(raw).value)]))
  }

  predicate HoldsPriority(b: Json, raw: Json) {
    && b.Obj? && (Priority in b.fields <==> Get(raw, Priority).Num?)
    && (Priority in b.fields ==> b.fields[Priority] == Get(raw, Priority))
  }

  /** The caption of a control: its label, or else its text. */
  predicate Captioned(raw: Json) {
    Clean(Get(raw, Label)).Some? || Clean(Get(raw, Text)).Some?
  }

  /** The value of a button, under the first of its three names that holds one. */
  predicate HoldsValue(b: Json, raw: Json) {
    && (Clean(Get(raw, Value)).Some? ==> Holds(b, Value, Clean(Get(raw, Value))))
    && (Clean(Get(raw, Value)) == None ==> HoldsFirst(b, Value, raw, CallbackData, CallbackData2))
  }

  /** A normal button, field by field. */
  predicate IsButtonOf(b: Json, raw: Json) {
    && b.Obj?
    && b.fields.Keys <= {Label, ActionKey, Value, Url, WebApp, Priority, Disabled, Reusable, Style}
    && HoldsFirst(b, Label, raw, Label, Text) && HoldsAction(b, Get(raw, ActionKey)) && HoldsValue(b, raw)
    && Holds(b, Url, Clean(Get(raw, Url))) && HoldsApp(b, raw) && HoldsPriority(b, raw)
    && HoldsFlag(b, Disabled, raw) && HoldsFlag(b, Reusable, raw)
    && HoldsWord(b, Style, raw, {"primary", "secondary", "success", "danger"})
  }

  /** The record holds the value under the key, where `Null` stands for nothing. */
  predicate HoldsAs(b: Json, k: Key, v: Json) {
    && b.Obj? && (k in b.fields <==> v != Null)
    && (k in b.fields ==> b.fields[k] == v)
  }

  lemma RecordHolds(f: Key -> Json, k: Key)
    requires k in BUTTON_KEYS && k != Label
    ensures HoldsAs(Record(f), k, f(k))
  {
  }

  lemma ButtonHolds(p: ButtonParts, k: Key)
    requires k in BUTTON_KEYS && k != Label
    ensures HoldsAs(BuildButton(p), k, ButtonField(p, k))
  {
    RecordHolds(x => ButtonField(p, x), k);
  }

  lemma ButtonHasLabel(p: ButtonParts)
    ensures Holds(BuildButton(p), Label, Some(p.caption))
    ensures BuildButton(p).fields.Keys <= BUTTON_KEYS
  {
  }

  lemma TextHolds(b: Json, k: Key, s: Option<string>)
    requires HoldsAs(b, k, OrNull(StrOf(s)))
    ensures Holds(b, k, s)
  {
  }

  lemma ActionHolds(b: Json, raw: Json)
    requires HoldsAs(b, ActionKey, OrNull(ActionField(ReadAction(raw))))
    ensures HoldsAction(b, raw)
  {
    ActionMeans(raw);
  }

  lemma AppHolds(b: Json, raw: Json)
    requires HoldsAs(b, WebApp, OrNull(WebAppField(WebAppUrl(raw))))
    ensures HoldsApp(b, raw)
  {
    assert WebAppUrl(raw) == AppUrl(raw);
  }

  lemma WordHolds(b: Json, raw: Json)
    requires HoldsAs(b, Style, OrNull(StrOf(WordAmong(Get(raw, Style), IsStyle))))
    ensures HoldsWord(b, Style, raw, {"primary", "secondary", "success", "danger"})
  {
  }

  /** The record holds the parts of the button that was read. */
  ghost predicate HoldsParts(b: Json, p: ButtonParts) {
    && b.Obj? && b.fields.Keys <= BUTTON_KEYS && Holds(b, Label, Some(p.caption))
    && forall k :: k in BUTTON_KEYS && k != Label ==> HoldsAs(b, k, ButtonField(p, k))
  }

  lemma BuiltHoldsParts(p: ButtonParts)
    ensures HoldsParts(BuildButton(p), p)
  {
    ButtonHasLabel(p);
    forall k | k in BUTTON_KEYS && k != Label ensures HoldsAs(BuildButton(p), k, ButtonField(p, k)) {
      ButtonHolds(p, k);
    }
  }

  lemma ButtonTexts(b: Json, raw: Json)
    requires ReadButton(raw).Some? && HoldsParts(b, ReadButton(raw).value)
    ensures HoldsFirst(b, Label, raw, Label, Text) && HoldsValue(b, raw) && Holds(b, Url, Clean(Get(raw, Url)))
  {
    var p := ReadButton(raw).value;
    TextHolds(b, Value, p.value);
    TextHolds(b, Url, p.url);
  }

  lemma ButtonTargets(b: Json, raw: Json)
    requires ReadButton(raw).Some? && HoldsParts(b, ReadButton(raw).value)
    ensures HoldsAction(b, Get(raw, ActionKey)) && HoldsApp(b, raw)
  {
    ActionHolds(b, Get(raw, ActionKey));
    AppHolds(b, raw);
  }

  lemma ButtonLooks(b: Json, raw: Json)
    requires ReadButton(raw).Some? && HoldsParts(b, ReadButton(raw).value)
    ensures HoldsFlag(b, Disabled, raw) && HoldsFlag(b, Reusable, raw) && HoldsPriority(b, raw)
    ensures HoldsWord(b, Style, raw, {"primary", "secondary", "success", "danger"})
  {
    WordHolds(b, raw);
  }

  /** A raw value is a button exactly when it has a caption; the normal button is then the
      one described. */
  lemma ButtonMeans(raw: Json)
    ensures NormButton(raw).Some? <==> Captioned(raw)
    ensures NormButton(raw).Some? ==> IsButtonOf(NormButton(raw).value, raw)
  {
    if ReadButton(raw).Some? {
      var b := NormButton(raw).value;
      BuiltHoldsParts(ReadButton(raw).value);
      ButtonTexts(b, raw);
      ButtonTargets(b, raw);
      ButtonLooks(b, raw);
    }
  }

  /** A normal option: its caption, its value or else the text of its action, and the action. */
  predicate IsOptionOf(o: Json, raw: Json) {
    && o.Obj? && o.fields.Keys <= {Label, Value, ActionKey}
    && HoldsFirst(o, Label, raw, Label, Text) && HoldsAction(o, Get(raw, ActionKey)) && HoldsChoice(o, raw)
  }

  /** The value of an option: its own, or else the text of its action. */
  predicate HoldsChoice(o: Json, raw: Json) {
    && (Clean(Get(raw, Value)).Some? ==> Holds(o, Value, Clean(Get(raw, Value))))
    && (Clean(Get(raw, Value)) == None ==>
          if HasWord(Get(Get(raw, ActionKey), Type), "command")
          then Holds(o, Value, Clean(Get(Get(raw, ActionKey), Command)))
          else Holds(o, Value, Clean(Get(Get(raw, ActionKey), Value))))
  }

  lemma OptionMeans(raw: Json)
    ensures NormOption(raw).Some?
            <==> Captioned(raw) && (Clean(Get(raw, Value)).Some? || !NoAction(Get(raw, ActionKey)))
    ensures NormOption(raw).Some? ==> IsOptionOf(NormOption(raw).value, raw)
  {
    ActionMeans(Get(raw, ActionKey));
    if ReadOption(raw).Some? {
      OptionFieldsHold(ReadOption(raw).value);
      OptionHolds(NormOption(raw).value, raw);
    }
  }

  lemma OptionFieldsHold(p: OptionParts)
    ensures var o := BuildOption(p);
            && HoldsAs(o, Label, Str(p.caption)) && HoldsAs(o, Value, Str(p.value))
            && HoldsAs(o, ActionKey, OrNull(ActionField(p.action))) && o.fields.Keys <= {Label, Value, ActionKey}
  {
  }

  lemma OptionHolds(o: Json, raw: Json)
    requires ReadOption(raw).Some? && o.Obj? && o.fields.Keys <= {Label, Value, ActionKey}
    requires var p := ReadOption(raw).value;
             && HoldsAs(o, Label, Str(p.caption)) && HoldsAs(o, Value, Str(p.value))
             && HoldsAs(o, ActionKey, OrNull(ActionField(p.action)))
    ensures IsOptionOf(o, raw)
  {
    ActionHolds(o, Get(raw, ActionKey));
    OptionChoice(o, raw);
  }

  lemma OptionChoice(o: Json, raw: Json)
    requires ReadOption(raw).Some? && HoldsAs(o, Value, Str(ReadOption(raw).value.value))
    ensures HoldsChoice(o, raw)
  {
    if ReadAction(Get(raw, ActionKey)).Some? { SentText(Get(raw, ActionKey)); }
    TextHolds(o, Value, Some(ReadOption(raw).value.value));
  }

  lemma SentText(raw: Json)
    requires ReadAction(raw).Some?
    ensures Some(ReadAction(raw).value.text)
            == if HasWord(Get(raw, Type), "command") then Clean(Get(raw, Command)) else Clean(Get(raw, Value))
  {
    KindMeans(CleanLower(Get(raw, Type)).value);
  }

  // ---------- lists ----------

  /** `ys` are the results of the items that have one, in the order of the items: `at[i]` is
      the place of the item that `ys[i]` comes from. */
  ghost predicate ResultsOf(items: seq<Json>, ys: seq<Json>, at: seq<nat>, f: Json -> Option<Json>) {
    |at| == |ys| && Increasing(at) && EachYields(items, ys, at, f) && NothingElse(items, at, f)
  }

  ghost predicate EachYields(items: seq<Json>, ys: seq<Json>, at: seq<nat>, f: Json -> Option<Json>)
    requires |at| == |ys|
  {
    forall i :: 0 <= i < |at| ==> at[i] < |items| && f(items[at[i]]) == Some(ys[i])
  }

  ghost predicate Increasing(at: seq<nat>) {
    forall i, j :: 0 <= i < j < |at| ==> at[i] < at[j]
  }

  ghost predicate NothingElse(items: seq<Json>, at: seq<nat>, f: Json -> Option<Json>) {
    forall n: nat :: n < |items| && n !in at ==> f(items[n]) == None
  }

  function Later(at: seq<nat>): seq<nat> {
    seq(|at|, i requires 0 <= i < |at| => at[i] + 1)
  }

  lemma LaterHas(at: seq<nat>, n: nat)
    ensures n in Later(at) <==> n > 0 && n - 1 in at
  {
    if n > 0 && n - 1 in at {
      var i :| 0 <= i < |at| && at[i] == n - 1;
      assert Later(at)[i] == n;
    }
  }

  lemma NothingElseLater(items: seq<Json>, at: seq<nat>, f: Json -> Option<Json>, all: seq<nat>)
    requires items != [] && NothingElse(items[1..], at, f)
    requires (all == Later(at) && f(items[0]) == None) || all == [0] + Later(at)
    ensures NothingElse(items, all, f)
  {
    assert 0 in [0] + Later(at);
    forall n: nat | n < |items| && n !in all ensures f(items[n]) == None {
      LaterHas(at, n);
      if n > 0 {
        assert n !in Later(at);
        assert items[n] == items[1..][n - 1];
      }
    }
  }

  /** An item in front that yields nothing. */
  lemma ResultsSkip(items: seq<Json>, ys: seq<Json>, at: seq<nat>, f: Json -> Option<Json>)
    requires items != [] && ResultsOf(items[1..], ys, at, f) && f(items[0]) == None
    ensures ResultsOf(items, ys, Later(at), f)
  {
    NothingElseLater(items, at, f, Later(at));
  }

  /** An item in front that yields y. */
  lemma ResultsAdd(items: seq<Json>, ys: seq<Json>, at: seq<nat>, f: Json -> Option<Json>, y: Json)
    requires items != [] && ResultsOf(items[1..], ys, at, f) && f(items[0]) == Some(y)
    ensures ResultsOf(items, [y] + ys, [0] + Later(at), f)
  {
    NothingElseLater(items, at, f, [0] + Later(at));
    IncreasingAdd(at);
    YieldsAdd(items, ys, at, f, y);
  }

  lemma IncreasingAdd(at: seq<nat>)
    requires Increasing(at)
    ensures Increasing([0] + Later(at))
  {
    var all := [0] + Later(at);
    forall i, j | 0 <= i < j < |all| ensures all[i] < all[j] {
      assert all[j] == at[j - 1] + 1 && (i > 0 ==> all[i] == at[i - 1] + 1 && at[i - 1] < at[j - 1]);
    }
  }

  lemma YieldsAdd(items: seq<Json>, ys: seq<Json>, at: seq<nat>, f: Json -> Option<Json>, y: Json)
    requires items != [] && |at| == |ys| && EachYields(items[1..], ys, at, f) && f(items[0]) == Some(y)
    ensures EachYields(items, [y] + ys, [0] + Later(at), f)
  {
    var all, zs := [0] + Later(at), [y] + ys;
    forall i | 0 <= i < |all| ensures all[i] < |items| && f(items[all[i]]) == Some(zs[i]) {
      if i > 0 { assert all[i] == at[i - 1] + 1 && zs[i] == ys[i - 1] && items[all[i]] == items[1..][at[i - 1]]; }
    }
  }

  /** A list is normalized item by item; what yields nothing is left out. */
  lemma {:induction false} FilterMapMeans(items: seq<Json>, f: Json -> Option<Json>) returns (at: seq<nat>)
    ensures ResultsOf(items, FilterMap(items, f), at, f)
  {
    if items == [] {
      at := [];
    } else {
      at := FilterMapMeans(items[1..], f);
      if f(items[0]).Some? {
        ResultsAdd(items, FilterMap(items[1..], f), at, f, f(items[0]).value);
        at := [0] + Later(at);
      } else {
        ResultsSkip(items, FilterMap(items[1..], f), at, f);
        assert FilterMap(items, f) == FilterMap(items[1..], f);
        at := Later(at);
      }
    }
  }

  /** Blocks are converted one by one, and what they make is put together in order. */
  lemma FlatMapMeans(items: seq<Json>, f: Json -> seq<Json>, i: nat)
    requires i < |items|
    ensures FlatMap(items, f) == FlatMap(items[..i], f) + f(items[i]) + FlatMap(items[i + 1..], f)
    ensures FlatMap([], f) == []
  {
    assert items == items[..i] + items[i..];
    FlatMapAppend(items[..i], items[i..], f);
    FlatMapFirst(items[i..], f);
    assert items[i..][1..] == items[i + 1..];
  }

  lemma FlatMapFirst(items: seq<Json>, f: Json -> seq<Json>)
    requires items != []
    ensures FlatMap(items, f) == f(items[0]) + FlatMap(items[1..], f)
  {
  }

  // ---------- normal blocks ----------

  predicate IsTextBlock(b: Json, word: string, text: string) {
    b == Obj(map[Type := Str(word), Text := Str(text)])
  }

  predicate IsButtonsBlock(b: Json, buttons: seq<Json>) {
    buttons != [] && b == Obj(map[Type := Str("buttons"), Buttons := List(buttons)])
  }

  predicate IsSelectBlock(b: Json, options: seq<Json>, hint: Option<string>) {
    && options != [] && b.Obj? && b.fields.Keys <= {Type, OptionsKey, Placeholder}
    && HoldsAs(b, Type, Str("select")) && HoldsAs(b, OptionsKey, List(options)) && Holds(b, Placeholder, hint)
  }

  /** The normal block of a raw one whose type is this word, and nothing for other words. */
  predicate IsBlockOf(b: Option<Json>, raw: Json, word: string) {
    var buttons, options := ItemsOf(Get(raw, Buttons)), ItemsOf(Get(raw, OptionsKey));
    if word == "text" || word == "context" then
      if Clean(Get(raw, Text)) == None then b == None
      else b.Some? && IsTextBlock(b.value, word, Clean(Get(raw, Text)).value)
    else if word == "divider" then b == Some(Obj(map[Type := Str("divider")]))
    else if word == "buttons" then
      if FilterMap(buttons, NormButton) == [] then b == None
      else b.Some? && IsButtonsBlock(b.value, FilterMap(buttons, NormButton))
    else if word == "select" then
      if FilterMap(options, NormOption) == [] then b == None
      else b.Some? && IsSelectBlock(b.value, FilterMap(options, NormOption), Clean(Get(raw, Placeholder)))
    else b == None
  }

  lemma NoKind(w: string)
    ensures w !in {"text", "context", "divider", "buttons", "select"} ==>
              KindOfWord(w) in {KCommand, KCallback, KUnknown}
  {
    KindMeans(w);
  }

  lemma SelectIs(options: seq<Json>, hint: Option<string>)
    requires options != []
    ensures IsSelectBlock(SelectBlock(List(options), StrOf(hint)), options, hint)
  {
  }

  /** A presentation block is read by its type, whatever its case and spaces. */
  lemma BlockMeans(raw: Json, w: string)
    requires HasWord(Get(raw, Type), w)
    ensures IsBlockOf(NormPresentationBlock(raw), raw, w)
    ensures IsBlockOf(NormInteractiveBlock(raw), raw, if w == "context" || w == "divider" then "" else w)
  {
    KindMeans(w);
    NoKind(w);
    var options := FilterMap(ItemsOf(Get(raw, OptionsKey)), NormOption);
    if options != [] { SelectIs(options, Clean(Get(raw, Placeholder))); }
  }

  /** Without a type there is no block. */
  lemma TypelessMeans(raw: Json)
    requires Clean(Get(raw, Type)) == None
    ensures NormPresentationBlock(raw) == None && NormInteractiveBlock(raw) == None
  {
  }

  predicate IsPresentation(p: Json, blocks: seq<Json>, raw: Json) {
    && p.Obj? && p.fields.Keys <= {Blocks, Title, Tone}
    && HoldsAs(p, Blocks, List(blocks)) && Holds(p, Title, Clean(Get(raw, Title)))
    && HoldsWord(p, Tone, raw, {"info", "success", "warning", "danger", "neutral"})
  }

  lemma PresentationIs(blocks: seq<Json>, raw: Json)
    ensures var p := PresentationOf(blocks, Clean(Get(raw, Title)), WordAmong(Get(raw, Tone), IsTone));
            IsPresentation(p, blocks, raw)
  {
  }

  /** A record with a title or a block is a presentation, and nothing else is. */
  lemma PresentationMeans(raw: Json)
    ensures var blocks := FilterMap(ItemsOf(Get(raw, Blocks)), NormPresentationBlock);
            && (NormPresentation(raw).Some? <==> raw.Obj? && (Clean(Get(raw, Title)).Some? || blocks != []))
            && (NormPresentation(raw).Some? ==> IsPresentation(NormPresentation(raw).value, blocks, raw))
  {
    PresentationIs(FilterMap(ItemsOf(Get(raw, Blocks)), NormPresentationBlock), raw);
  }

  /** A reply is a record with at least one block. */
  lemma ReplyMeans(raw: Json)
    ensures var blocks := FilterMap(ItemsOf(Get(raw, Blocks)), NormInteractiveBlock);
            NormInteractive(raw) == if blocks == [] then None else Some(Obj(map[Blocks := List(blocks)]))
  {
  }

  // ---------- conversions ----------

  /** What Python takes for false. */
  predicate IsFalse(v: Json) {
    || v == Null || v == Bool(false) || v == Num(0) || v == Other(false) || v == Str("") || v == List([])
    || v == Obj(map[])
  }

  lemma TruthMeans(v: Json)
    ensures IsTrue(v) <==> !IsFalse(v)
  {
  }

  /** The record holds what the raw one holds under the key, `None` counting as nothing. */
  predicate Copies(b: Json, k: Key, raw: Json) {
    HoldsAs(b, k, Get(raw, k))
  }

  /** The text that an action sends: the command, or the value of a callback. */
  function ActionText(action: Json): Json {
    if Get(action, Type) == Str("command") then Get(action, Command)
    else if Get(action, Type) == Str("callback") then Get(action, Value)
    else Null
  }

  /** The converted button, field by field: its value is its own, or else the text of its action. */
  predicate IsConverted(b: Json, raw: Json) {
    var text := ActionText(Get(raw, ActionKey));
    var app := if IsFalse(Get(raw, WebApp)) then Get(raw, WebApp2) else Get(raw, WebApp);
    && b.Obj?
    && b.fields.Keys <= {Label, ActionKey, Value, Url, WebApp, Priority, Disabled, Reusable, Style}
    && Label in b.fields && b.fields[Label] == GetOrEmpty(raw, Label)
    && Copies(b, Style, raw) && Copies(b, ActionKey, raw) && Copies(b, Url, raw) && Copies(b, Priority, raw)
    && HoldsAs(b, WebApp, app) && HoldsFlag(b, Disabled, raw) && HoldsFlag(b, Reusable, raw)
    && HoldsAs(b, Value, if Get(raw, Value) != Null then Get(raw, Value) else if text.Str? then text else Null)
  }

  lemma ExactMeans(action: Json)
    ensures ActionValue(action) == ActionText(action)
  {
    if Get(action, Type).Str? { KindMeans(Get(action, Type).s); }
  }

  lemma ConvertedHolds(raw: Json, k: Key)
    requires k in BUTTON_KEYS && k != Label
    ensures HoldsAs(Record(x => ConvertField(raw, x)), k, ConvertField(raw, k))
  {
    RecordHolds(x => ConvertField(raw, x), k);
  }

  /** The record holds what the conversion puts under each key. */
  ghost predicate HoldsConverted(b: Json, raw: Json) {
    && b.Obj? && b.fields.Keys <= BUTTON_KEYS && Label in b.fields && b.fields[Label] == GetOrEmpty(raw, Label)
    && forall k :: k in BUTTON_KEYS && k != Label ==> HoldsAs(b, k, ConvertField(raw, k))
  }

  lemma CopiedFields(b: Json, raw: Json)
    requires HoldsConverted(b, raw)
    ensures Copies(b, Style, raw) && Copies(b, ActionKey, raw) && Copies(b, Url, raw) && Copies(b, Priority, raw)
  {
    assert HoldsAs(b, Style, ConvertField(raw, Style)) && HoldsAs(b, ActionKey, ConvertField(raw, ActionKey));
    assert HoldsAs(b, Url, ConvertField(raw, Url)) && HoldsAs(b, Priority, ConvertField(raw, Priority));
  }

  lemma FlagsConverted(b: Json, raw: Json)
    requires HoldsConverted(b, raw)
    ensures HoldsFlag(b, Disabled, raw) && HoldsFlag(b, Reusable, raw)
  {
    assert HoldsAs(b, Disabled, ConvertField(raw, Disabled)) && HoldsAs(b, Reusable, ConvertField(raw, Reusable));
  }

  lemma ValueConverted(b: Json, raw: Json)
    requires HoldsConverted(b, raw)
    ensures var text := ActionText(Get(raw, ActionKey));
            HoldsAs(b, Value, if Get(raw, Value) != Null then Get(raw, Value) else if text.Str? then text else Null)
  {
    ExactMeans(Get(raw, ActionKey));
    assert HoldsAs(b, Value, ConvertField(raw, Value));
  }

  lemma AppConverted(b: Json, raw: Json)
    requires HoldsConverted(b, raw)
    ensures HoldsAs(b, WebApp, if IsFalse(Get(raw, WebApp)) then Get(raw, WebApp2) else Get(raw, WebApp))
  {
    TruthMeans(Get(raw, WebApp));
    assert HoldsAs(b, WebApp, ConvertField(raw, WebApp));
  }

  lemma ConvertedIs(b: Json, raw: Json)
    requires HoldsConverted(b, raw)
    ensures IsConverted(b, raw)
  {
    CopiedFields(b, raw);
    FlagsConverted(b, raw);
    ValueConverted(b, raw);
    AppConverted(b, raw);
  }

  lemma RecordLabelled(f: Key -> Json)
    ensures var b := Record(f);
            b.Obj? && b.fields.Keys <= BUTTON_KEYS && Label in b.fields && b.fields[Label] == f(Label)
  {
  }

  lemma RecordConverted(raw: Json)
    ensures HoldsConverted(Record(x => ConvertField(raw, x)), raw)
  {
    RecordLabelled(x => ConvertField(raw, x));
    forall k | k in BUTTON_KEYS && k != Label
      ensures HoldsAs(Record(x => ConvertField(raw, x)), k, ConvertField(raw, k))
    {
      ConvertedHolds(raw, k);
    }
  }

  /** Nothing happens when the button is pressed. */
  predicate DoesNothing(raw: Json) {
    && IsFalse(Get(raw, ActionKey)) && IsFalse(Get(raw, Value)) && IsFalse(Get(raw, Url))
    && IsFalse(Get(raw, WebApp)) && IsFalse(Get(raw, WebApp2))
  }

  lemma EffectMeans(raw: Json)
    ensures HasEffect(raw) <==> !DoesNothing(raw)
  {
    TruthMeans(Get(raw, ActionKey));
    TruthMeans(Get(raw, Value));
    TruthMeans(Get(raw, Url));
    TruthMeans(Get(raw, WebApp));
    TruthMeans(Get(raw, WebApp2));
  }

  /** A button is converted exactly when it has an action, a value, an address or an app. */
  lemma ConvertButtonMeans(raw: Json)
    ensures ConvertButton(raw) == None <==> DoesNothing(raw)
    ensures ConvertButton(raw).Some? ==> IsConverted(ConvertButton(raw).value, raw)
  {
    EffectMeans(raw);
    RecordConverted(raw);
    ConvertedIs(Record(x => ConvertField(raw, x)), raw);
  }

  /** The converted option: the text of its action goes before its own value. */
  predicate IsConvertedOption(o: Json, raw: Json) {
    var text := ActionText(Get(raw, ActionKey));
    && o.Obj? && o.fields.Keys <= {Label, Value, ActionKey}
    && Label in o.fields && o.fields[Label] == GetOrEmpty(raw, Label)
    && Value in o.fields
    && o.fields[Value] == (if !IsFalse(text) then text else GetOrEmpty(raw, Value))
    && Copies(o, ActionKey, raw)
  }

  /** Every record is converted as an option, and nothing else is. */
  lemma ConvertOptionMeans(raw: Json)
    ensures ConvertOption(raw).Some? <==> raw.Obj?
    ensures ConvertOption(raw).Some? ==> IsConvertedOption(ConvertOption(raw).value, raw)
  {
    ExactMeans(Get(raw, ActionKey));
    TruthMeans(ControlValue(raw));
  }

  predicate IsConvertedSelect(b: Json, options: seq<Json>, raw: Json) {
    && b.Obj? && b.fields.Keys <= {Type, OptionsKey, Placeholder}
    && HoldsAs(b, Type, Str("select")) && HoldsAs(b, OptionsKey, List(options)) && Copies(b, Placeholder, raw)
  }

  /** What a block of a presentation becomes in the reply, by its type: text and context a
      text, buttons those that do something, a select with all its options. */
  predicate IsConvertedBlock(ys: seq<Json>, raw: Json, word: string) {
    var buttons := FilterMap(ItemsOf(Get(raw, Buttons)), ConvertButton);
    if word == "text" || word == "context" then
      if Get(raw, Text).Str? then |ys| == 1 && IsTextBlock(ys[0], "text", Get(raw, Text).s) else ys == []
    else if word == "buttons" then if buttons == [] then ys == [] else |ys| == 1 && IsButtonsBlock(ys[0], buttons)
    else if word == "select" then
      |ys| == 1 && IsConvertedSelect(ys[0], FilterMap(ItemsOf(Get(raw, OptionsKey)), ConvertOption), raw)
    else ys == []
  }

  lemma ConvertBlockMeans(raw: Json, w: string)
    requires Get(raw, Type) == Str(w)
    ensures IsConvertedBlock(ConvertBlock(raw), raw, w)
  {
    KindMeans(w);
    NoKind(w);
  }

  /** A presentation becomes its title as a text, if it has one, and then its blocks. */
  lemma ToInteractiveMeans(p: Json)
    ensures var title := Get(p, Title);
            var blocks := FlatMap(ItemsOf(Get(p, Blocks)), ConvertBlock);
            if title.Str? && title.s != "" then
              var first := Obj(map[Type := Str("text"), Text := title]);
              ToInteractive(p) == Some(Obj(map[Blocks := List([first] + blocks)]))
            else ToInteractive(p) == if blocks == [] then None else Some(Obj(map[Blocks := List(blocks)]))
  {
    assert [] + FlatMap(ItemsOf(Get(p, Blocks)), ConvertBlock) == FlatMap(ItemsOf(Get(p, Blocks)), ConvertBlock);
  }

  /** A block of a reply goes back as what it is; only text, buttons and selects do. */
  predicate IsBackBlock(ys: seq<Json>, raw: Json, word: string) {
    if word == "text" then
      if Get(raw, Text).Str? then |ys| == 1 && IsTextBlock(ys[0], "text", Get(raw, Text).s) else ys == []
    else if word == "buttons" then
      && |ys| == 1
      && ys[0] == Obj(map[Type := Str("buttons"),
                          Buttons := if IsFalse(Get(raw, Buttons)) then List([]) else Get(raw, Buttons)])
    else if word == "select" then
      && |ys| == 1 && ys[0].Obj? && ys[0].fields.Keys <= {Type, OptionsKey, Placeholder}
      && HoldsAs(ys[0], Type, Str("select"))
      && HoldsAs(ys[0], OptionsKey, if IsFalse(Get(raw, OptionsKey)) then List([]) else Get(raw, OptionsKey))
      && Copies(ys[0], Placeholder, raw)
    else ys == []
  }

  lemma BackBlockMeans(raw: Json, w: string)
    requires Get(raw, Type) == Str(w)
    ensures IsBackBlock(BackBlock(raw), raw, w)
  {
    KindMeans(w);
    NoKind(w);
    TruthMeans(Get(raw, Buttons));
    TruthMeans(Get(raw, OptionsKey));
  }

  /** A reply becomes a presentation of its blocks, without a title. */
  lemma ToPresentationMeans(r: Json)
    ensures var blocks := FlatMap(ItemsOf(Get(r, Blocks)), BackBlock);
            ToPresentation(r) == if blocks == [] then None else Some(Obj(map[Blocks := List(blocks)]))
  {
  }
}
