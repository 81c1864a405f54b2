/** Name resolution shared by every trigger: the three shapes a name argument
    can take (an event map, a string with whitespace, a single name) and the
    list of (name, callback) pairs the dispatcher is called with, in order
    (src/TyphonEvents.js:195-223). */
module EventNames {
  import opened Values

  /** The characters `\s` matches in a JavaScript regular expression. */
  predicate IsSpace(c: char) {
    || c == ' ' || c == '\t' || c == '\n' || c == '\r' || c == '\U{000B}' || c == '\U{000C}'
    || c == '\U{00A0}' || c == '\U{1680}' || ('\U{2000}' <= c <= '\U{200A}')
    || c == '\U{2028}' || c == '\U{2029}' || c == '\U{202F}' || c == '\U{205F}'
    || c == '\U{3000}' || c == '\U{FEFF}'
  }

  /** `/\s+/.test(s)`. */
  predicate HasSpace(s: string) {
    exists i :: 0 <= i < |s| && IsSpace(s[i])
  }

  /** Drops the run of whitespace at the front of `s`. */
  function SkipSpaces(s: string): (r: string)
    ensures |r| <= |s| && r == s[|s| - |r|..]
    ensures r == [] || !IsSpace(r[0])
    ensures s != [] && IsSpace(s[0]) ==> |r| < |s|
  {
    if s != [] && IsSpace(s[0]) then SkipSpaces(s[1..]) else s
  }

  /** `s.split(/\s+/)`: the pieces between maximal runs of whitespace. A
      leading or trailing run yields an empty first or last piece, and the
      empty string splits into one empty piece. */
  function Split(s: string): (r: seq<string>)
    ensures |r| >= 1
    decreases |s|
  {
    if s == [] then [""]
    else if IsSpace(s[0]) then [""] + Split(SkipSpaces(s))
    else
      var rest := Split(s[1..]);
      [[s[0]] + rest[0]] + rest[1..]
  }

  /** The tokens `s_EVENTS_API` dispatches for a string name: those of
      `split` when the name is non-empty and contains whitespace, otherwise
      the name itself (src/TyphonEvents.js:208-220). */
  function Tokens(s: string): seq<string> {
    if s != "" && HasSpace(s) then Split(s) else [s]
  }

  /** One key of an event map, with the callback stored under it. */
  datatype MapEntry = MapEntry(key: string, callback: CallbackId)

  /** The name argument of a trigger or registration call: a string, any other
      non-object value `raw` (undefined, null, a number), which names the
      property `key` it converts to, or an event map with its keys in
      `Object.keys` order. */
  datatype NameArg = Name(s: string) | NonString(raw: Value, key: string) | EventMap(entries: seq<MapEntry>)

  /** One call of the iteratee: the property the single event name looks up,
      the name value itself as passed on (what `all` listeners receive first),
      and the callback. */
  datatype Target = Target(name: string, raw: Value, callback: Option<CallbackId>)

  /** What a trigger uses of a target: the property it looks up and the value
      it puts in front of the arguments of the `all` listeners. */
  datatype EventKey = EventKey(name: string, raw: Value)

  /** The key of a string event name. */
  function StringKey(s: string): (r: EventKey)
    ensures r.name == s && r.raw == Str(s)
  {
    EventKey(s, Str(s))
  }

  /** The key of a name argument that is not an event map. */
  function SingleKey(n: NameArg): EventKey
    requires !n.EventMap?
  {
    if n.Name? then StringKey(n.s) else EventKey(n.key, n.raw)
  }

  function TokenTargets(toks: seq<string>, cb: Option<CallbackId>): (r: seq<Target>)
    ensures |r| == |toks|
    ensures forall i :: 0 <= i < |r| ==> r[i] == Target(toks[i], Str(toks[i]), cb)
  {
    seq(|toks|, i requires 0 <= i < |toks| => Target(toks[i], Str(toks[i]), cb))
  }

  function EntryTargets(es: seq<MapEntry>): seq<Target> {
    if es == [] then [] else TokenTargets(Tokens(es[0].key), Some(es[0].callback)) + EntryTargets(es[1..])
  }

  /** The iteratee calls `s_EVENTS_API` makes for a name argument and the
      callback argument `cb`, in order: one per key of an event map (each key
      resolved as a string, with the map's value as callback), one per token
      of a whitespace string, and one for anything else. */
  function Targets(n: NameArg, cb: Option<CallbackId>): seq<Target> {
    match n
    case Name(s) => TokenTargets(Tokens(s), cb)
    case NonString(raw, key) => [Target(key, raw, cb)]
    case EventMap(es) => EntryTargets(es)
  }

  /** The keys alone, as the triggers use them. */
  function TargetKeys(ts: seq<Target>): (r: seq<EventKey>)
    ensures |r| == |ts|
  {
    seq(|ts|, i requires 0 <= i < |ts| => EventKey(ts[i].name, ts[i].raw))
  }

  /** The keys of string tokens. */
  function StringKeys(toks: seq<string>): (r: seq<EventKey>)
    ensures |r| == |toks|
  {
    seq(|toks|, i requires 0 <= i < |toks| => StringKey(toks[i]))
  }

  // ---------------------------------------------------------------------
  // Properties of the split

  /** No token contains whitespace, and only the first and the last token can
      be empty. */
  lemma {:induction false} SplitTokens(s: string)
    ensures forall k :: 0 <= k < |Split(s)| ==> !HasSpace(Split(s)[k])
    ensures forall k :: 0 < k < |Split(s)| - 1 ==> Split(s)[k] != ""
    decreases |s|
  {
    if s == [] {
    } else if IsSpace(s[0]) {
      SplitTokens(SkipSpaces(s));
    } else {
      SplitTokens(s[1..]);
      var rest := Split(s[1..]);
      var head := [s[0]] + rest[0];
      assert !HasSpace(rest[0]);
      assert !HasSpace(head) by {
        forall i | 0 <= i < |head| ensures !IsSpace(head[i]) {
          if i > 0 { assert head[i] == rest[0][i - 1]; }
        }
      }
    }
  }

  /** A name without whitespace splits into itself alone, so the `test` at
      src/TyphonEvents.js:208 changes nothing: `Tokens` is `Split`. */
  lemma {:induction false} SplitWithoutSpace(s: string)
    requires !HasSpace(s)
    ensures Split(s) == [s]
    ensures Tokens(s) == Split(s)
    decreases |s|
  {
    if s != [] {
      assert !IsSpace(s[0]);
      assert !HasSpace(s[1..]) by {
        forall i | 0 <= i < |s[1..]| ensures !IsSpace(s[1..][i]) { assert s[1..][i] == s[i + 1]; }
      }
      SplitWithoutSpace(s[1..]);
      assert [s[0]] + s[1..] == s;
    }
  }

  /** A string with whitespace resolves to at least two names. */
  lemma {:induction false} SplitWithSpace(s: string)
    requires HasSpace(s)
    ensures |Split(s)| >= 2
    decreases |s|
  {
    if !IsSpace(s[0]) {
      var i :| 0 <= i < |s| && IsSpace(s[i]);
      assert IsSpace(s[1..][i - 1]);
      SplitWithSpace(s[1..]);
    } else {
      assert Split(s) == [""] + Split(SkipSpaces(s));
    }
  }

  /** The tokens of every name argument, in order. */
  lemma TokensOfName(s: string)
    ensures HasSpace(s) ==> Tokens(s) == Split(s) && |Tokens(s)| >= 2
    ensures !HasSpace(s) ==> Tokens(s) == [s]
  {
    if HasSpace(s) { SplitWithSpace(s); } else { SplitWithoutSpace(s); }
  }

  /** The names joined back with single spaces. */
  function Join(ts: seq<string>): string
    requires |ts| >= 1
  {
    if |ts| == 1 then ts[0] else ts[0] + " " + Join(ts[1..])
  }

  /** What `split` can return: no whitespace in any token, no empty token
      except possibly the first and the last. */
  predicate SplitShaped(ts: seq<string>) {
    && |ts| >= 1
    && (forall k :: 0 <= k < |ts| ==> !HasSpace(ts[k]))
    && (forall k :: 0 < k < |ts| - 1 ==> ts[k] != "")
  }

  lemma {:induction false} SplitPrefix(t: string, s: string)
    requires !HasSpace(t)
    ensures Split(t + s) == [t + Split(s)[0]] + Split(s)[1..]
    decreases |t|
  {
    if t != [] {
      assert !IsSpace(t[0]);
      assert !HasSpace(t[1..]) by {
        forall i | 0 <= i < |t[1..]| ensures !IsSpace(t[1..][i]) { assert t[1..][i] == t[i + 1]; }
      }
      SplitPrefix(t[1..], s);
      var ss := Split(s);
      assert (t + s)[0] == t[0] && (t + s)[1..] == t[1..] + s;
      var rest := Split(t[1..] + s);
      assert rest == [t[1..] + ss[0]] + ss[1..];
      assert rest[0] == t[1..] + ss[0] && rest[1..] == ss[1..];
      assert Split(t + s) == [[t[0]] + rest[0]] + rest[1..];
      assert [t[0]] + (t[1..] + ss[0]) == t + ss[0];
    } else {
      var ss := Split(s);
      assert t + s == s && t + ss[0] == ss[0];
      assert ss == [ss[0]] + ss[1..];
    }
  }

  /** Splitting names joined by single spaces gives the names back. */
  lemma {:induction false} SplitJoin(ts: seq<string>)
    requires SplitShaped(ts)
    ensures Split(Join(ts)) == ts
    decreases |ts|
  {
    if |ts| == 1 {
      SplitWithoutSpace(ts[0]);
    } else {
      var tail := ts[1..];
      assert SplitShaped(tail) by {
        forall k | 0 < k < |tail| - 1 ensures tail[k] != "" { assert tail[k] == ts[k + 1]; }
      }
      SplitJoin(tail);
      var j := Join(tail);
      if |tail| > 1 {
        assert tail[0] != "";
        assert j[0] == tail[0][0];
        assert !HasSpace(tail[0]);
      }
      assert SkipSpaces(" " + j) == j by {
        assert (" " + j)[1..] == j;
        assert j == [] || !IsSpace(j[0]);
      }
      assert Split(" " + j) == [""] + tail;
      SplitPrefix(ts[0], " " + j);
      assert Join(ts) == ts[0] + (" " + j);
      assert ts[0] + "" == ts[0];
      assert [ts[0]] + tail == ts;
    }
  }

  /** The whitespace-free characters of a string, in order. */
  function Strip(s: string): string {
    if s == [] then [] else (if IsSpace(s[0]) then [] else [s[0]]) + Strip(s[1..])
  }

  function Concat(ts: seq<string>): string {
    if ts == [] then [] else ts[0] + Concat(ts[1..])
  }

  lemma {:induction false} StripSkip(s: string)
    ensures Strip(SkipSpaces(s)) == Strip(s)
    decreases |s|
  {
    if s != [] && IsSpace(s[0]) { StripSkip(s[1..]); }
  }

  /** Splitting loses only whitespace: the tokens hold every other character
      of the name, in order. */
  lemma {:induction false} SplitKeepsCharacters(s: string)
    ensures Concat(Split(s)) == Strip(s)
    decreases |s|
  {
    if s == [] {
    } else if IsSpace(s[0]) {
      SplitKeepsCharacters(SkipSpaces(s));
      StripSkip(s[1..]);
      assert SkipSpaces(s) == SkipSpaces(s[1..]);
      assert Concat([""] + Split(SkipSpaces(s))) == Concat(Split(SkipSpaces(s)));
    } else {
      SplitKeepsCharacters(s[1..]);
      var rest := Split(s[1..]);
      assert rest == [rest[0]] + rest[1..];
      assert Concat(rest) == rest[0] + Concat(rest[1..]);
      assert Concat(Split(s)) == ([s[0]] + rest[0]) + Concat(rest[1..]);
    }
  }

  // ---------------------------------------------------------------------
  // Properties of the resolution

  /** A single name, a non-string name or a name without whitespace is
      dispatched exactly once, with the callback given. */
  lemma SingleTarget(n: NameArg, cb: Option<CallbackId>)
    requires n.NonString? || (n.Name? && !HasSpace(n.s))
    ensures Targets(n, cb) == [Target(SingleKey(n).name, SingleKey(n).raw, cb)]
    ensures TargetKeys(Targets(n, cb)) == [SingleKey(n)]
  {
    if n.Name? { SplitWithoutSpace(n.s); }
  }

  /** A whitespace string is dispatched once per token of its split, in order,
      every time with the same callback. */
  lemma SpacedTargets(s: string, cb: Option<CallbackId>)
    requires HasSpace(s)
    ensures TargetKeys(Targets(Name(s), cb)) == StringKeys(Split(s))
    ensures forall t :: t in Targets(Name(s), cb) ==> t.callback == cb
    ensures |Targets(Name(s), cb)| >= 2
  {
    TokensOfName(s);
  }

  /** An event map is resolved key by key: its targets are those of its first
      key, each with the callback stored under that key, then those of the
      rest. */
  lemma {:induction false} MapTargets(es: seq<MapEntry>)
    requires es != []
    ensures Targets(EventMap(es), None) == Targets(Name(es[0].key), Some(es[0].callback)) + Targets(EventMap(es[1..]), None)
    ensures |Targets(EventMap(es), None)| >= |es|
    decreases |es|
  {
    if |es| > 1 { MapTargets(es[1..]); }
    assert |Tokens(es[0].key)| >= 1 by { if HasSpace(es[0].key) { SplitWithSpace(es[0].key); } }
  }

  /** Registration with a callback passes a callback on every call. */
  lemma {:induction false} TargetsHaveCallbacks(n: NameArg, cb: CallbackId)
    ensures forall t :: t in Targets(n, Some(cb)) ==> t.callback.Some?
  {
    if n.EventMap? { EntryTargetsHaveCallbacks(n.entries); }
  }

  lemma {:induction false} EntryTargetsHaveCallbacks(es: seq<MapEntry>)
    ensures forall t :: t in EntryTargets(es) ==> t.callback.Some?
  {
    if es != [] { EntryTargetsHaveCallbacks(es[1..]); }
  }

  lemma TargetKeysAppend(a: seq<Target>, b: seq<Target>)
    ensures TargetKeys(a + b) == TargetKeys(a) + TargetKeys(b)
  {
  }

  /** The callback a target carries does not change its key. */
  lemma TokenTargetKeys(toks: seq<string>, cb: Option<CallbackId>)
    ensures TargetKeys(TokenTargets(toks, cb)) == StringKeys(toks)
  {
  }

  /** The keys of an event map are resolved one after another. */
  lemma {:induction false} EntryTargetsConcat(a: seq<MapEntry>, b: seq<MapEntry>)
    ensures EntryTargets(a + b) == EntryTargets(a) + EntryTargets(b)
  {
    if a != [] {
      assert (a + b)[1..] == a[1..] + b;
      EntryTargetsConcat(a[1..], b);
    } else {
      assert a + b == b;
    }
  }

  /** The names an event map's key adds are those of the key as a name. */
  lemma EntryNames(es: seq<MapEntry>, i: nat)
    requires i < |es|
    ensures TargetKeys(EntryTargets(es[..i + 1])) == TargetKeys(EntryTargets(es[..i])) + TargetKeys(Targets(Name(es[i].key), None))
  {
    assert es[..i + 1] == es[..i] + [es[i]];
    EntryTargetsConcat(es[..i], [es[i]]);
    assert [es[i]][1..] == [];
    TargetKeysAppend(EntryTargets(es[..i]), EntryTargets([es[i]]));
    TokenTargetKeys(Tokens(es[i].key), Some(es[i].callback));
    TokenTargetKeys(Tokens(es[i].key), None);
  }

  lemma {:induction false} EntryTargetsSplit(es: seq<MapEntry>, i: nat)
    requires i <= |es|
    ensures EntryTargets(es) == EntryTargets(es[..i]) + EntryTargets(es[i..])
  {
    var a, b := es[..i], es[i..];
    assert a + b == es;
    EntryTargetsConcat(a, b);
  }
}
