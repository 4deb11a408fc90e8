/** The core's public registry: the rule builder, the validator map, the
    per-locale message dictionaries and the current locale. The registry
    operations are placeholders in the core module; their behaviour here
    is the one the core's unit tests fix. */
module Registry {
  import opened Text
  import opened Values
  import opened Validators

  /** makeRule(name)(...params): the rule tuple `[name, ...params]`. */
  function MakeRule(name: string, params: seq<Value>): (r: seq<Value>)
    ensures |r| == |params| + 1
    ensures r[0] == Str(name)
    ensures forall i :: 0 <= i < |params| ==> r[i + 1] == params[i]
  {
    [Str(name)] + params
  }

  /** How the form engine reads a tuple from a rule list: the head is the
      rule name, the rest are the parameters, and the empty tuple is read
      by each adapter in its own way. A head that is not a string is not
      part of this model (`None`). */
  function RuleOf(tuple: seq<Value>): (r: Option<Rule>)
    ensures tuple == [] ==> r == Some(EmptyTuple)
    ensures r.Some? && r.value.Tuple? ==> |r.value.params| + 1 == |tuple| && tuple[0] == Str(r.value.name)
  {
    if tuple == [] then Some(EmptyTuple)
    else if tuple[0].Str? then Some(Tuple(tuple[0].s, tuple[1..]))
    else None
  }

  /** A built tuple is read back as that name with those parameters, in
      order; with no parameters it is the one-element tuple `[name]`. */
  lemma MakeRuleRoundTrip(name: string, params: seq<Value>)
    ensures RuleOf(MakeRule(name, params)) == Some(Tuple(name, params))
    ensures params == [] ==> MakeRule(name, params) == [Str(name)]
  {
    assert MakeRule(name, params)[1..] == params;
  }

  /** The validator map, the message dictionaries by locale, and the
      current locale. */
  class Registry {
    var validators: map<string, ValidatorFn>
    var messages: map<string, map<string, string>>
    var locale: string

    /** The registry as the module starts: the built-in validators, the
        bundled dictionaries and the default locale. */
    constructor (bundled: map<string, map<string, string>>, defaultLocale: string)
      ensures validators == BaseValidators
      ensures messages == bundled && locale == defaultLocale
    {
      validators := BaseValidators;
      messages := bundled;
      locale := defaultLocale;
    }

    /** registerValidator: `name` is sent to `fn`, every other entry and
        the dictionaries are unchanged. */
    method RegisterValidator(name: string, fn: ValidatorFn)
      modifies this
      ensures validators == old(validators)[name := fn]
      ensures forall n :: n in old(validators) && n != name ==> n in validators && validators[n] == old(validators)[n]
      ensures messages == old(messages) && locale == old(locale)
    {
      validators := validators[name := fn];
    }

    /** overrideValidator: a registered `name` is sent to `fn` instead. */
    method OverrideValidator(name: string, fn: ValidatorFn)
      modifies this
      ensures validators == old(validators)[name := fn]
      ensures validators.Keys == old(validators.Keys) + {name}
      ensures messages == old(messages) && locale == old(locale)
    {
      validators := validators[name := fn];
    }

    /** getValidatorMap: the current validator map. */
    method GetValidatorMap() returns (r: map<string, ValidatorFn>)
      ensures r == validators
      ensures BaseValidators.Keys <= validators.Keys ==> "required" in r
    {
      r := validators;
    }

    /** setMessages: the dictionary of `loc` becomes exactly `dict`. */
    method SetMessages(loc: string, dict: map<string, string>)
      modifies this
      ensures messages == old(messages)[loc := dict]
      ensures validators == old(validators) && locale == old(locale)
    {
      messages := messages[loc := dict];
    }

    /** mergeMessages: the keys of `partial` are added to the dictionary of
        `loc` (its value wins on a shared key); the other keys stay. */
    method MergeMessages(loc: string, partial: map<string, string>)
      modifies this
      ensures messages == old(messages)[loc := DictOf(old(messages), loc) + partial]
      ensures loc in messages && messages[loc].Keys == DictOf(old(messages), loc).Keys + partial.Keys
      ensures forall k :: k in DictOf(old(messages), loc) && k !in partial ==> messages[loc][k] == DictOf(old(messages), loc)[k]
      ensures validators == old(validators) && locale == old(locale)
    {
      messages := messages[loc := DictOf(messages, loc) + partial];
    }

    /** setLocale: `loc` becomes the current locale. */
    method SetLocale(loc: string)
      modifies this
      ensures locale == loc
      ensures validators == old(validators) && messages == old(messages)
    {
      locale := loc;
    }

    /** getLocale: the current locale. */
    method GetLocale() returns (r: string)
      ensures r == locale
    {
      r := locale;
    }

    /** getMessages(loc?): the dictionary of `loc`, or of the current
        locale when none is given; an unknown locale gives the empty
        dictionary. */
    method GetMessages(loc: Option<string>) returns (r: map<string, string>)
      ensures var l := if loc.Some? then loc.value else locale;
              (l in messages ==> r == messages[l]) && (l !in messages ==> r == map[])
    {
      var l := if loc.Some? then loc.value else locale;
      r := DictOf(messages, l);
    }
  }

  /** The dictionary of a locale, empty when the locale has none. */
  function DictOf(messages: map<string, map<string, string>>, loc: string): (r: map<string, string>)
    ensures loc !in messages ==> r == map[]
    ensures loc in messages ==> r == messages[loc]
  {
    if loc in messages then messages[loc] else map[]
  }

  /** The core's message scenario on a fresh registry: a new locale's
      dictionary is set and read back, a key is merged in, the locale is
      made current; the current dictionary then holds both keys, and a
      locale nobody set reads as the empty dictionary. */
  method MessagesScenario(bundled: map<string, map<string, string>>, defaultLocale: string, loc: string, unknown: string)
    returns (afterSet: map<string, string>, afterMerge: map<string, string>, current: string,
             currentDict: map<string, string>, unknownDict: map<string, string>)
    requires unknown !in bundled && unknown != loc
    ensures afterSet == map["hello" := "world"]
    ensures afterMerge == map["hello" := "world", "foo" := "bar"]
    ensures current == loc
    ensures currentDict == map["hello" := "world", "foo" := "bar"]
    ensures unknownDict == map[]
  {
    var registry := new Registry(bundled, defaultLocale);
    registry.SetMessages(loc, map["hello" := "world"]);
    afterSet := registry.GetMessages(Some(loc));
    ghost var merged := map["hello" := "world"] + map["foo" := "bar"];
    assert merged == map["hello" := "world", "foo" := "bar"] by {
      assert merged.Keys == {"hello", "foo"};
    }
    registry.MergeMessages(loc, map["foo" := "bar"]);
    assert registry.messages[loc] == merged;
    afterMerge := registry.GetMessages(Some(loc));
    registry.SetLocale(loc);
    current := registry.GetLocale();
    currentDict := registry.GetMessages(None);
    unknownDict := registry.GetMessages(Some(unknown));
  }
}
