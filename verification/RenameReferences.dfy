/** Renaming configured resources: the change list of a candidate, and the one-pass rewrite of references.

    A document is modelled as its seven named collections, each a sequence of item trees. */
module RenameReferences {
  import opened Basics
  import opened MergeChanged

  datatype Module = Listener | Upstreams | Strategy | Hosts | Outbound | RuleSet | Clients

  /** The items of every collection; a collection the document leaves out has none. */
  type Document = map<Module, seq<Value>>

  /** The new name of a renamed resource. */
  type Renames = map<(Module, string), string>

  datatype EditError = DuplicateTarget | NotFound | UnsupportedSource

  function Items(document: Document, m: Module): seq<Value> {
    if m in document then document[m] else []
  }

  /** The text of a field of a mapping. */
  function Text(value: Value, key: Key): Option<string> {
    if value.Mapping? && key in value.fields && value.fields[key].Scalar? then Some(value.fields[key].text) else None
  }

  function Name(item: Value): Option<string> {
    Text(item, "name")
  }

  // ---------------------------------------------------------------- rewriting

  function NewName(renames: Renames, m: Module, name: string): string {
    if (m, name) in renames then renames[(m, name)] else name
  }

  /** `rename` */
  function RenameValue(value: Value, m: Module, renames: Renames): Value {
    if value.Scalar? then Scalar(NewName(renames, m, value.text)) else value
  }

  /** `rename_field` */
  function RenameField(value: Value, key: Key, m: Module, renames: Renames): Value {
    if value.Mapping? && key in value.fields
    then Mapping(value.fields[key := RenameValue(value.fields[key], m, renames)])
    else value
  }

  /** The first colon of a text, or its length. */
  function Colon(text: string): (index: nat)
    ensures index <= |text| && (index < |text| ==> text[index] == ':')
    ensures ':' !in text[..index]
  {
    if text == "" || text[0] == ':' then 0 else
      var rest := Colon(text[1..]);
      assert text[..rest + 1] == [text[0]] + text[1..][..rest];
      rest + 1
  }

  /** The name a rule-set reference `name:selector` starts with. */
  function ReferencedName(text: string): string {
    text[..Colon(text)]
  }

  function RenameSelector(text: string, renames: Renames): string {
    NewName(renames, RuleSet, ReferencedName(text)) + text[Colon(text)..]
  }

  function RewriteRule(rule: Value, renames: Renames): Value {
    var renamed := RenameField(RenameField(rule, "hosts", Hosts, renames), "upstream", Upstreams, renames);
    if Text(renamed, "rule_set").Some?
    then Mapping(renamed.fields["rule_set" := Scalar(RenameSelector(renamed.fields["rule_set"].text, renames))])
    else renamed
  }

  /** One change to every item of a list field. */
  function EachItem(value: Value, key: Key, change: Value -> Value): Value {
    if value.Mapping? && key in value.fields && value.fields[key].Sequence? then
      var items := value.fields[key].items;
      Mapping(value.fields[key := Sequence(seq(|items|, i requires 0 <= i < |items| => change(items[i])))])
    else value
  }

  predicate HasList(value: Value, key: Key) {
    value.Mapping? && key in value.fields && value.fields[key].Sequence?
  }

  /** The rewrite of one item; the variant of a listener or an upstream decides which fields are references. */
  function RewriteItem(m: Module, item: Value, renames: Renames): Result<Value, EditError> {
    var variant := Text(item, "type");
    match m
    case Listener =>
      if variant == Some("udp") || variant == Some("tcp")
      then Ok(RenameField(RenameField(item, "strategy", Strategy, renames), "hosts", Hosts, renames))
      else if variant == Some("doh") && HasList(item, "routes")
      then Ok(EachItem(item, "routes", route => RenameField(route, "strategy", Strategy, renames)))
      else Err(UnsupportedSource)
    case Upstreams =>
      var member := (value: Value) => RenameField(value, "name", Upstreams, renames);
      if variant == Some("doh")
      then Ok(RenameField(RenameField(item, "bootstrap", Upstreams, renames), "proxy", Outbound, renames))
      else if variant == Some("group") then Ok(EachItem(EachItem(item, "upstreams", member), "fallbacks", member))
      else if variant == Some("hosts") then Ok(item)
      else Err(UnsupportedSource)
    case Strategy =>
      if HasList(item, "rules")
      then Ok(EachItem(RenameField(item, "default_upstream", Upstreams, renames), "rules",
                       rule => RewriteRule(rule, renames)))
      else Err(UnsupportedSource)
    case RuleSet => Ok(if variant == Some("remote") then RenameField(item, "proxy", Outbound, renames) else item)
    case Clients => Ok(RenameField(item, "strategy", Strategy, renames))
    case Hosts => Ok(item)
    case Outbound => Ok(item)
  }

  /** The items the rewrite knows: listeners over UDP and TCP, DoH listeners with a list of routes, DoH, group and hosts
      upstreams, strategies with a list of rules, and everything in the other collections. */
  predicate Supported(m: Module, item: Value) {
    match m
    case Listener =>
      Text(item, "type") in {Some("udp"), Some("tcp")} || (Text(item, "type") == Some("doh") && HasList(item, "routes"))
    case Upstreams => Text(item, "type") in {Some("doh"), Some("group"), Some("hosts")}
    case Strategy => HasList(item, "rules")
    case _ => true
  }

  /** An item is rewritten exactly when it is supported, whatever is renamed. */
  lemma RewrittenExactlyWhenSupported(m: Module, item: Value, renames: Renames)
    ensures RewriteItem(m, item, renames).Ok? <==> Supported(m, item)
    ensures RewriteItem(m, item, renames).Err? ==> RewriteItem(m, item, renames).error == UnsupportedSource
  {
  }

  predicate Rewritable(items: seq<Value>, m: Module, renames: Renames) {
    forall i | 0 <= i < |items| :: RewriteItem(m, items[i], renames).Ok?
  }

  predicate ItemsRewritten(items: seq<Value>, m: Module, renames: Renames, result: seq<Value>) {
    |result| == |items| && forall i | 0 <= i < |items| :: Ok(result[i]) == RewriteItem(m, items[i], renames)
  }

  method RewriteItems(items: seq<Value>, m: Module, renames: Renames) returns (result: Result<seq<Value>, EditError>)
    ensures result.Ok? <==> Rewritable(items, m, renames)
    ensures result.Ok? ==> ItemsRewritten(items, m, renames, result.value)
    ensures result.Err? ==> result.error == UnsupportedSource
  {
    var rewritten := items;
    for i := 0 to |items|
      invariant |rewritten| == |items|
      invariant forall j | 0 <= j < i :: Ok(rewritten[j]) == RewriteItem(m, items[j], renames)
      invariant forall j | i <= j < |items| :: rewritten[j] == items[j]
    {
      var item := RewriteItem(m, rewritten[i], renames);
      if item.Err? {
        return Err(item.error);
      }
      rewritten := rewritten[i := item.value];
    }
    result := Ok(rewritten);
  }

  ghost predicate Rewritten(document: Document, renames: Renames, result: Document) {
    forall m: Module :: ItemsRewritten(Items(document, m), m, renames, Items(result, m))
  }

  /** `rewrite_references`: collection by collection, in the order of the source. */
  method RewriteReferences(document: Document, renames: Renames) returns (result: Result<Document, EditError>)
    ensures result.Ok? <==> forall m: Module :: Rewritable(Items(document, m), m, renames)
    ensures result.Ok? <==>
      forall m: Module, i: nat | i < |Items(document, m)| :: Supported(m, Items(document, m)[i])
    ensures result.Ok? ==> Rewritten(document, renames, result.value)
    ensures result.Err? ==> result.error == UnsupportedSource
  {
    var order := [Listener, Upstreams, Strategy, RuleSet, Clients];
    var rewritten := document;
    for k := 0 to |order|
      invariant forall m: Module | m in order[..k] ::
        ItemsRewritten(Items(document, m), m, renames, Items(rewritten, m))
      invariant forall m: Module | m !in order[..k] :: Items(rewritten, m) == Items(document, m)
    {
      var m := order[k];
      assert m !in order[..k] && order[..k + 1] == order[..k] + [m];
      var items := RewriteItems(Items(rewritten, m), m, renames);
      if items.Err? {
        assert !Rewritable(Items(document, m), m, renames);
        return Err(items.error);
      }
      rewritten := rewritten[m := items.value];
    }
    result := Ok(rewritten);
    forall m: Module
      ensures ItemsRewritten(Items(document, m), m, renames, Items(rewritten, m))
      ensures Rewritable(Items(document, m), m, renames)
    {
      assert m in order || m == Hosts || m == Outbound;
    }
  }

  // ---------------------------------------------------------------- reference sites

  /** A place that names a resource: where, in which collection, and whether a selector may follow the name. */
  datatype Site = Site(path: seq<Step>, target: Module, selector: bool)

  predicate InList(path: seq<Step>, list: Key, key: Key) {
    |path| == 3 && path[0] == Member(list) && path[1].Item? && path[2] == Member(key)
  }

  /** The reference sites of an item, by collection and variant. */
  predicate IsSite(m: Module, item: Value, site: Site) {
    var variant := Text(item, "type");
    match m
    case Listener =>
      && !site.selector
      && if variant == Some("udp") || variant == Some("tcp") then
           || (site.path == [Member("strategy")] && site.target == Strategy)
           || (site.path == [Member("hosts")] && site.target == Hosts)
         else variant == Some("doh") && InList(site.path, "routes", "strategy") && site.target == Strategy
    case Upstreams =>
      && !site.selector
      && if variant == Some("doh") then
           || (site.path == [Member("bootstrap")] && site.target == Upstreams)
           || (site.path == [Member("proxy")] && site.target == Outbound)
         else
           && variant == Some("group") && site.target == Upstreams
           && (InList(site.path, "upstreams", "name") || InList(site.path, "fallbacks", "name"))
    case Strategy =>
      || (site.path == [Member("default_upstream")] && site.target == Upstreams && !site.selector)
      || (InList(site.path, "rules", "hosts") && site.target == Hosts && !site.selector)
      || (InList(site.path, "rules", "upstream") && site.target == Upstreams && !site.selector)
      || (InList(site.path, "rules", "rule_set") && site.target == RuleSet && site.selector)
    case RuleSet => variant == Some("remote") && site == Site([Member("proxy")], Outbound, false)
    case Clients => site == Site([Member("strategy")], Strategy, false)
    case Hosts => false
    case Outbound => false
  }

  /** The name a site's text refers to. */
  function NameAt(site: Site, text: string): string {
    if site.selector then ReferencedName(text) else text
  }

  function RenamedText(site: Site, text: string, renames: Renames): string {
    if site.selector then RenameSelector(text, renames) else NewName(renames, site.target, text)
  }

  // ---------------------------------------------------------------- what the rewrite does to paths

  lemma AtField(value: Value, key: Key, rest: seq<Step>)
    ensures At(value, [Member(key)] + rest) ==
      if value.Mapping? && key in value.fields then At(value.fields[key], rest) else None
  {
    assert ([Member(key)] + rest)[1..] == rest;
  }

  lemma AtItem(value: Value, key: Key, index: nat, rest: seq<Step>)
    ensures At(value, [Member(key), Item(index)] + rest) ==
      if HasList(value, key) && index < |value.fields[key].items| then At(value.fields[key].items[index], rest)
        else None
  {
    assert [Member(key), Item(index)] + rest == [Member(key)] + ([Item(index)] + rest);
    AtField(value, key, [Item(index)] + rest);
    assert ([Item(index)] + rest)[1..] == rest;
  }

  /** Renaming a field leaves every other field alone. */
  lemma RenameFieldAt(value: Value, key: Key, m: Module, renames: Renames, other: Key)
    ensures Text(RenameField(value, key, m, renames), other) ==
      if other == key && Text(value, key).Some? then Some(NewName(renames, m, Text(value, key).value))
        else Text(value, other)
    ensures other != key ==> HasList(RenameField(value, key, m, renames), other) == HasList(value, other)
    ensures other != key && HasList(value, other) ==>
      RenameField(value, key, m, renames).fields[other] == value.fields[other]
  {
  }

  lemma EachItemAt(value: Value, key: Key, change: Value -> Value, index: nat)
    requires HasList(value, key) && index < |value.fields[key].items|
    ensures HasList(EachItem(value, key, change), key)
    ensures |EachItem(value, key, change).fields[key].items| == |value.fields[key].items|
    ensures EachItem(value, key, change).fields[key].items[index] == change(value.fields[key].items[index])
  {
  }

  /** The text at a path, if a scalar stands there. */
  function TextAt(item: Value, path: seq<Step>): Option<string> {
    var found := At(item, path);
    if found.Some? && found.value.Scalar? then Some(found.value.text) else None
  }

  lemma TextAtField(item: Value, key: Key)
    ensures TextAt(item, [Member(key)]) == Text(item, key)
  {
    AtField(item, key, []);
    assert [Member(key)] + [] == [Member(key)];
  }

  lemma TextInList(item: Value, path: seq<Step>, list: Key, key: Key)
    requires InList(path, list, key)
    ensures TextAt(item, path) ==
      if HasList(item, list) && path[1].index < |item.fields[list].items|
      then Text(item.fields[list].items[path[1].index], key) else None
  {
    AtItem(item, list, path[1].index, [Member(key)]);
    assert path == [Member(list), Item(path[1].index)] + [Member(key)];
    if HasList(item, list) && path[1].index < |item.fields[list].items| {
      TextAtField(item.fields[list].items[path[1].index], key);
    }
  }

  lemma RewriteRuleAt(rule: Value, renames: Renames)
    ensures Text(rule, "hosts").Some? ==>
      Text(RewriteRule(rule, renames), "hosts") == Some(NewName(renames, Hosts, Text(rule, "hosts").value))
    ensures Text(rule, "upstream").Some? ==>
      Text(RewriteRule(rule, renames), "upstream") == Some(NewName(renames, Upstreams, Text(rule, "upstream").value))
    ensures Text(rule, "rule_set").Some? ==>
      Text(RewriteRule(rule, renames), "rule_set") == Some(RenameSelector(Text(rule, "rule_set").value, renames))
  {
    RenameFieldAt(rule, "hosts", Hosts, renames, "upstream");
    RenameFieldAt(rule, "hosts", Hosts, renames, "rule_set");
    RenameFieldAt(RenameField(rule, "hosts", Hosts, renames), "upstream", Upstreams, renames, "rule_set");
  }

  /** A field of the items of a list, rewritten item by item. */
  lemma ListTextRewritten(item: Value, result: Value, path: seq<Step>, list: Key, key: Key, change: Value -> Value)
    requires InList(path, list, key) && TextAt(item, path).Some?
    requires HasList(item, list) ==>
      HasList(result, list) && result.fields[list] == EachItem(item, list, change).fields[list]
    ensures HasList(item, list) && path[1].index < |item.fields[list].items|
    ensures TextAt(item, path) == Text(item.fields[list].items[path[1].index], key)
    ensures TextAt(result, path) == Text(change(item.fields[list].items[path[1].index]), key)
  {
    TextInList(item, path, list, key);
    TextInList(result, path, list, key);
    EachItemAt(item, list, change, path[1].index);
  }

  /** The rewrite gives every reference of an item its new name. */
  lemma SiteIsRenamed(m: Module, item: Value, renames: Renames, site: Site)
    requires IsSite(m, item, site) && TextAt(item, site.path).Some? && RewriteItem(m, item, renames).Ok?
    ensures TextAt(RewriteItem(m, item, renames).value, site.path) ==
      Some(RenamedText(site, TextAt(item, site.path).value, renames))
  {
    if |site.path| == 1 {
      FieldSiteIsRenamed(m, item, renames, site);
    } else if m == Strategy {
      RuleSiteIsRenamed(item, renames, site);
    } else {
      MemberSiteIsRenamed(m, item, renames, site);
    }
  }

  lemma FieldSiteIsRenamed(m: Module, item: Value, renames: Renames, site: Site)
    requires IsSite(m, item, site) && |site.path| == 1
    requires TextAt(item, site.path).Some? && RewriteItem(m, item, renames).Ok?
    ensures TextAt(RewriteItem(m, item, renames).value, site.path) ==
      Some(RenamedText(site, TextAt(item, site.path).value, renames))
  {
    var key := site.path[0].key;
    assert site.path == [Member(key)];
    TextAtField(item, key);
    TextAtField(RewriteItem(m, item, renames).value, key);
  }

  lemma MemberSiteIsRenamed(m: Module, item: Value, renames: Renames, site: Site)
    requires IsSite(m, item, site) && |site.path| == 3 && m != Strategy
    requires TextAt(item, site.path).Some? && RewriteItem(m, item, renames).Ok?
    ensures TextAt(RewriteItem(m, item, renames).value, site.path) ==
      Some(RenamedText(site, TextAt(item, site.path).value, renames))
  {
    var result := RewriteItem(m, item, renames).value;
    if m == Listener {
      ListTextRewritten(item, result, site.path, "routes", "strategy",
          route => RenameField(route, "strategy", Strategy, renames));
    } else {
      var member := (value: Value) => RenameField(value, "name", Upstreams, renames);
      var list := site.path[0].key;
      ListTextRewritten(item, result, site.path, list, "name", member);
    }
  }

  lemma RuleSiteIsRenamed(item: Value, renames: Renames, site: Site)
    requires IsSite(Strategy, item, site) && |site.path| == 3
    requires TextAt(item, site.path).Some? && RewriteItem(Strategy, item, renames).Ok?
    ensures TextAt(RewriteItem(Strategy, item, renames).value, site.path) ==
      Some(RenamedText(site, TextAt(item, site.path).value, renames))
  {
    var result := RewriteItem(Strategy, item, renames).value;
    var rewrite := (rule: Value) => RewriteRule(rule, renames);
    var key := site.path[2].key;
    RenameFieldAt(item, "default_upstream", Upstreams, renames, "rules");
    ListTextRewritten(item, result, site.path, "rules", key, rewrite);
    RewriteRuleAt(item.fields["rules"].items[site.path[1].index], renames);
  }

  /** The rewrite never changes the name of an item. */
  lemma NameIsKept(m: Module, item: Value, renames: Renames)
    requires RewriteItem(m, item, renames).Ok?
    ensures Name(RewriteItem(m, item, renames).value) == Name(item)
  {
  }

  lemma FieldRenameKeepsOthers(value: Value, key: Key, m: Module, renames: Renames, path: seq<Step>)
    requires TextAt(value, path).Some? && path != [Member(key)]
    ensures TextAt(RenameField(value, key, m, renames), path) == TextAt(value, path)
  {
    if value.Mapping? && key in value.fields && path[0] == Member(key) {
      assert path == [Member(key)] + path[1..];
      AtField(value, key, path[1..]);
      AtField(RenameField(value, key, m, renames), key, path[1..]);
    }
  }

  lemma EachItemKeepsOthers(value: Value, list: Key, change: Value -> Value, path: seq<Step>)
    requires TextAt(value, path).Some?
    requires HasList(value, list) && |path| >= 2 && path[0] == Member(list) && path[1].Item?
             && path[1].index < |value.fields[list].items| ==>
      var item := value.fields[list].items[path[1].index];
      TextAt(item, path[2..]).Some? ==> TextAt(change(item), path[2..]) == TextAt(item, path[2..])
    ensures TextAt(EachItem(value, list, change), path) == TextAt(value, path)
  {
    if HasList(value, list) && path[0] == Member(list) {
      assert path == [Member(list)] + path[1..];
      AtField(value, list, path[1..]);
      if |path| >= 2 && path[1].Item? {
        assert path == [Member(list), Item(path[1].index)] + path[2..];
        AtItem(value, list, path[1].index, path[2..]);
        AtItem(EachItem(value, list, change), list, path[1].index, path[2..]);
      }
    }
  }

  ghost predicate NoSite(m: Module, item: Value, path: seq<Step>) {
    forall target: Module, selector: bool :: !IsSite(m, item, Site(path, target, selector))
  }

  /** Text that is no reference is left alone. */
  lemma OtherTextIsKept(m: Module, item: Value, renames: Renames, path: seq<Step>)
    requires RewriteItem(m, item, renames).Ok? && TextAt(item, path).Some? && NoSite(m, item, path)
    ensures TextAt(RewriteItem(m, item, renames).value, path) == TextAt(item, path)
  {
    var variant := Text(item, "type");
    match m {
      case Listener => ListenerTextIsKept(item, renames, path);
      case Upstreams => UpstreamTextIsKept(item, renames, path);
      case Strategy => StrategyTextIsKept(item, renames, path);
      case RuleSet =>
        assert !IsSite(m, item, Site(path, Outbound, false));
        if variant == Some("remote") {
          FieldRenameKeepsOthers(item, "proxy", Outbound, renames, path);
        }
      case Clients =>
        assert !IsSite(m, item, Site(path, Strategy, false));
        FieldRenameKeepsOthers(item, "strategy", Strategy, renames, path);
      case Hosts =>
      case Outbound =>
    }
  }

  lemma ListenerTextIsKept(item: Value, renames: Renames, path: seq<Step>)
    requires RewriteItem(Listener, item, renames).Ok? && TextAt(item, path).Some? && NoSite(Listener, item, path)
    ensures TextAt(RewriteItem(Listener, item, renames).value, path) == TextAt(item, path)
  {
    assert !IsSite(Listener, item, Site(path, Strategy, false)) && !IsSite(Listener, item, Site(path, Hosts, false));
    if Text(item, "type") == Some("doh") {
      if |path| >= 2 && path[1].Item? && path[1].index < |item.fields["routes"].items| && path[0] == Member("routes") {
        var route := item.fields["routes"].items[path[1].index];
        if TextAt(route, path[2..]).Some? {
          FieldRenameKeepsOthers(route, "strategy", Strategy, renames, path[2..]);
        }
      }
      EachItemKeepsOthers(item, "routes", route => RenameField(route, "strategy", Strategy, renames), path);
    } else {
      FieldRenameKeepsOthers(item, "strategy", Strategy, renames, path);
      FieldRenameKeepsOthers(RenameField(item, "strategy", Strategy, renames), "hosts", Hosts, renames, path);
    }
  }

  lemma UpstreamTextIsKept(item: Value, renames: Renames, path: seq<Step>)
    requires RewriteItem(Upstreams, item, renames).Ok? && TextAt(item, path).Some? && NoSite(Upstreams, item, path)
    ensures TextAt(RewriteItem(Upstreams, item, renames).value, path) == TextAt(item, path)
  {
    assert !IsSite(Upstreams, item, Site(path, Upstreams, false))
        && !IsSite(Upstreams, item, Site(path, Outbound, false));
    if Text(item, "type") == Some("doh") {
      FieldRenameKeepsOthers(item, "bootstrap", Upstreams, renames, path);
      FieldRenameKeepsOthers(RenameField(item, "bootstrap", Upstreams, renames), "proxy", Outbound, renames, path);
    } else if Text(item, "type") == Some("group") {
      var member := (value: Value) => RenameField(value, "name", Upstreams, renames);
      MembersKeepOthers(item, "upstreams", renames, path);
      MembersKeepOthers(EachItem(item, "upstreams", member), "fallbacks", renames, path);
    }
  }

  lemma MembersKeepOthers(item: Value, list: Key, renames: Renames, path: seq<Step>)
    requires TextAt(item, path).Some? && !InList(path, list, "name")
    ensures TextAt(EachItem(item, list, value => RenameField(value, "name", Upstreams, renames)), path) ==
      TextAt(item, path)
  {
    if |path| >= 2 && path[1].Item? && HasList(item, list) && path[1].index < |item.fields[list].items|
        && path[0] == Member(list) {
      var member := item.fields[list].items[path[1].index];
      if TextAt(member, path[2..]).Some? {
        FieldRenameKeepsOthers(member, "name", Upstreams, renames, path[2..]);
      }
    }
    EachItemKeepsOthers(item, list, value => RenameField(value, "name", Upstreams, renames), path);
  }

  lemma StrategyTextIsKept(item: Value, renames: Renames, path: seq<Step>)
    requires RewriteItem(Strategy, item, renames).Ok? && TextAt(item, path).Some? && NoSite(Strategy, item, path)
    ensures TextAt(RewriteItem(Strategy, item, renames).value, path) == TextAt(item, path)
  {
    assert !IsSite(Strategy, item, Site(path, Upstreams, false)) && !IsSite(Strategy, item, Site(path, Hosts, false));
    assert !IsSite(Strategy, item, Site(path, RuleSet, true));
    FieldRenameKeepsOthers(item, "default_upstream", Upstreams, renames, path);
    var renamed := RenameField(item, "default_upstream", Upstreams, renames);
    RenameFieldAt(item, "default_upstream", Upstreams, renames, "rules");
    if |path| >= 2 && path[1].Item? && path[1].index < |item.fields["rules"].items| && path[0] == Member("rules") {
      var rule := item.fields["rules"].items[path[1].index];
      if TextAt(rule, path[2..]).Some? {
        RuleTextIsKept(rule, renames, path[2..]);
      }
    }
    EachItemKeepsOthers(renamed, "rules", rule => RewriteRule(rule, renames), path);
  }

  lemma RuleTextIsKept(rule: Value, renames: Renames, path: seq<Step>)
    requires TextAt(rule, path).Some?
    requires path != [Member("hosts")] && path != [Member("upstream")] && path != [Member("rule_set")]
    ensures TextAt(RewriteRule(rule, renames), path) == TextAt(rule, path)
  {
    var hosts := RenameField(rule, "hosts", Hosts, renames);
    FieldRenameKeepsOthers(rule, "hosts", Hosts, renames, path);
    var upstream := RenameField(hosts, "upstream", Upstreams, renames);
    FieldRenameKeepsOthers(hosts, "upstream", Upstreams, renames, path);
    if Text(upstream, "rule_set").Some? && path != [] && path[0] == Member("rule_set") {
      assert path == [Member("rule_set")] + path[1..];
      AtField(upstream, "rule_set", path[1..]);
      assert false;
    }
  }

  // ---------------------------------------------------------------- the change list

  /** A change to a collection. An update carries the canonical value of the resource it found under its old name. */
  datatype Change = Create(m: Module, value: Value) | Update(m: Module, originalName: string, before: Value,
      after: Value)

  predicate ChangeOk(change: Change) {
    change.Update? ==> Name(change.before) == Some(change.originalName)
  }

  function ValueOf(change: Change): Value {
    if change.Create? then change.value else change.after
  }

  /** The key a change occupies: an update its old name, a creation its name. */
  function KeyOf(change: Change, name: string): (Module, string) {
    (change.m, if change.Update? then change.originalName else name)
  }

  /** The first item of a given name. */
  function Position(items: seq<Value>, name: string): (index: Option<nat>)
    ensures index.Some? ==> index.value < |items| && Name(items[index.value]) == Some(name)
    ensures index.Some? ==> forall i | 0 <= i < index.value :: Name(items[i]) != Some(name)
    ensures index.None? ==> forall i | 0 <= i < |items| :: Name(items[i]) != Some(name)
  {
    if items == [] then None
    else if Name(items[0]) == Some(name) then Some(0)
    else
      var rest := Position(items[1..], name);
      if rest.Some? then Some(rest.value + 1) else None
  }

  ghost predicate UniqueNames(document: Document) {
    forall m: Module, i: nat, j: nat |
      && i < |Items(document, m)| && j < |Items(document, m)|
      && Name(Items(document, m)[i]) == Name(Items(document, m)[j]) :: i == j
  }

  /** The item at a position of the original document, after some changes. */
  predicate ItemFollows(original: Document, document: Document, renames: Renames, touched: set<(Module, string)>,
      m: Module, i: nat)
    requires i < |Items(original, m)|
  {
    && i < |Items(document, m)|
    && (Name(Items(original, m)[i]).Some? ==>
        var name := Name(Items(original, m)[i]).value;
        && Name(Items(document, m)[i]) == Some(NewName(renames, m, name))
        && ((m, name) !in touched ==> (m, name) !in renames && Items(document, m)[i] == Items(original, m)[i]))
  }

  ghost predicate Follows(original: Document, document: Document, renames: Renames, touched: set<(Module, string)>) {
    forall m: Module, i: nat | i < |Items(original, m)| :: ItemFollows(original, document, renames, touched, m, i)
  }

  lemma MergedName(source: Value, before: Value, after: Value)
    requires Name(source).Some? && Name(source) == Name(before) && Name(after).Some?
    ensures Name(Merge(source, before, after)) == Name(after)
  {
    if before != after {
      MergeByField(source.fields, before.fields, after.fields, "name");
    }
  }

  lemma UpdateFollows(
    original: Document, document: Document, renames: Renames, touched: set<(Module, string)>, change: Change,
    index: nat,
    next: Document, nextRenames: Renames)
    requires UniqueNames(original) && Follows(original, document, renames, touched)
    requires change.Update? && ChangeOk(change) && Name(change.after).Some?
        && (change.m, change.originalName) !in touched
    requires Position(Items(original, change.m), change.originalName) == Some(index)
        && index < |Items(document, change.m)|
    requires next == document[change.m :=
      Items(document, change.m)[index := Merge(Items(document, change.m)[index], change.before, change.after)]]
    requires nextRenames == if change.originalName == Name(change.after).value then renames
      else renames[(change.m, change.originalName) := Name(change.after).value]
    ensures Follows(original, next, nextRenames, touched + {(change.m, change.originalName)})
  {
    forall m: Module, i: nat | i < |Items(original, m)|
      ensures ItemFollows(original, next, nextRenames, touched + {(change.m, change.originalName)}, m, i)
    {
      assert ItemFollows(original, document, renames, touched, m, i);
      if m == change.m && i == index {
        MergedName(Items(document, m)[i], change.before, change.after);
      } else if m == change.m {
        assert Name(Items(original, m)[i]) != Name(Items(original, m)[index]);
      }
    }
  }

  /** The key of the `k`-th change. */
  function KeyAt(changes: seq<Change>, k: nat): (Module, string)
    requires k < |changes|
  {
    KeyOf(changes[k], if Name(ValueOf(changes[k])).Some? then Name(ValueOf(changes[k])).value else "")
  }

  /** The `k`-th change can be applied: it has a name, its key is not used before, and an update finds its resource. */
  predicate Applicable(original: Document, changes: seq<Change>, k: nat)
    requires k < |changes|
  {
    && Name(ValueOf(changes[k])).Some?
    && (forall j: nat | j < k :: KeyAt(changes, j) != KeyAt(changes, k))
    && (changes[k].Update? ==> Position(Items(original, changes[k].m), changes[k].originalName).Some?)
  }

  /** Why a change cannot be applied: it has no name, its key is used before, or else its resource is not there. */
  ghost function Obstacle(changes: seq<Change>, k: nat): EditError
    requires k < |changes|
  {
    if Name(ValueOf(changes[k])).None? then UnsupportedSource
    else if exists j: nat | j < k :: KeyAt(changes, j) == KeyAt(changes, k) then DuplicateTarget
    else NotFound
  }

  /** The `k`-th change, if an update, has been merged into the item it found. */
  predicate MergedAt(original: Document, document: Document, changes: seq<Change>, k: nat)
    requires k < |changes|
  {
    var change := changes[k];
    change.Update? ==>
      var index := Position(Items(original, change.m), change.originalName);
      && index.Some? && index.value < |Items(document, change.m)|
      && Items(document, change.m)[index.value] ==
        Merge(Items(original, change.m)[index.value], change.before, change.after)
  }

  /** The values the first `count` changes create in a collection, in order. */
  function Created(changes: seq<Change>, count: nat, m: Module): seq<Value>
    requires count <= |changes|
  {
    if count == 0 then []
    else
      var change := changes[count - 1];
      Created(changes, count - 1, m) + (if change.Create? && change.m == m then [change.value] else [])
  }

  predicate Grown(original: Document, document: Document, changes: seq<Change>, count: nat, m: Module)
    requires count <= |changes|
  {
    && |Items(original, m)| <= |Items(document, m)|
    && Items(document, m)[|Items(original, m)|..] == Created(changes, count, m)
  }

  ghost predicate KeysTouched(changes: seq<Change>, count: nat, touched: set<(Module, string)>)
    requires count <= |changes|
  {
    && (forall k: nat | k < count :: KeyAt(changes, k) in touched)
    && (forall key | key in touched :: exists k: nat | k < count :: KeyAt(changes, k) == key)
  }

  /** The document after the first `count` changes: merged where updated, extended where created, the same elsewhere. */
  ghost predicate Applied(
    original: Document, changes: seq<Change>, count: nat, document: Document, renames: Renames,
    touched: set<(Module, string)>)
    requires count <= |changes|
  {
    && Follows(original, document, renames, touched)
    && (forall k: nat | k < count :: Applicable(original, changes, k))
    && (forall k: nat | k < count :: MergedAt(original, document, changes, k))
    && (forall m: Module :: Grown(original, document, changes, count, m))
    && KeysTouched(changes, count, touched)
  }

  lemma MergedAtStays(original: Document, document: Document, next: Document, changes: seq<Change>, j: nat, k: nat,
      index: nat)
    requires UniqueNames(original) && j < k < |changes| && MergedAt(original, document, changes, j)
    requires changes[k].Update? && KeyAt(changes, j) != KeyAt(changes, k)
    requires Position(Items(original, changes[k].m), changes[k].originalName) == Some(index)
    requires |Items(next, changes[k].m)| == |Items(document, changes[k].m)|
    requires forall i | 0 <= i < |Items(document, changes[k].m)| && i != index ::
      Items(next, changes[k].m)[i] == Items(document, changes[k].m)[i]
    requires forall m: Module | m != changes[k].m :: Items(next, m) == Items(document, m)
    ensures MergedAt(original, next, changes, j)
  {
  }

  lemma KeysGrow(changes: seq<Change>, k: nat, touched: set<(Module, string)>)
    requires k < |changes| && KeysTouched(changes, k, touched)
    ensures KeysTouched(changes, k + 1, touched + {KeyAt(changes, k)})
  {
  }

  /** A creation extends its collection; an update leaves the created part alone. */
  lemma GrownNext(original: Document, document: Document, next: Document, changes: seq<Change>, k: nat, m: Module)
    requires k < |changes| && Grown(original, document, changes, k, m)
    requires changes[k].Create? && changes[k].m == m ==> Items(next, m) == Items(document, m) + [changes[k].value]
    requires changes[k].Create? && changes[k].m != m ==> Items(next, m) == Items(document, m)
    requires changes[k].Update? ==>
      && |Items(next, m)| == |Items(document, m)|
      && forall i | |Items(original, m)| <= i < |Items(document, m)| :: Items(next, m)[i] == Items(document, m)[i]
    ensures Grown(original, next, changes, k + 1, m)
  {
  }

  /** Applying one more update. */
  lemma UpdateApplied(
    original: Document, changes: seq<Change>, k: nat, document: Document, renames: Renames,
    touched: set<(Module, string)>,
    index: nat, next: Document, nextRenames: Renames)
    requires UniqueNames(original) && k < |changes| && Applied(original, changes, k, document, renames, touched)
    requires changes[k].Update? && ChangeOk(changes[k]) && Applicable(original, changes, k)
    requires Position(Items(original, changes[k].m), changes[k].originalName) == Some(index)
    requires index < |Items(document, changes[k].m)|
    requires next == document[changes[k].m :=
      Items(document, changes[k].m)[index := Merge(Items(document, changes[k].m)[index], changes[k].before,
          changes[k].after)]]
    requires nextRenames == if changes[k].originalName == Name(changes[k].after).value then renames
      else renames[(changes[k].m, changes[k].originalName) := Name(changes[k].after).value]
    ensures Applied(original, changes, k + 1, next, nextRenames, touched + {KeyAt(changes, k)})
  {
    UpdateFollows(original, document, renames, touched, changes[k], index, next, nextRenames);
    assert ItemFollows(original, document, renames, touched, changes[k].m, index);
    var count := k + 1;
    KeysGrow(changes, k, touched);
    forall j: nat | j < count
      ensures MergedAt(original, next, changes, j)
    {
      if j < k {
        MergedAtStays(original, document, next, changes, j, k, index);
      }
    }
    forall m: Module
      ensures Grown(original, next, changes, count, m)
    {
      GrownNext(original, document, next, changes, k, m);
    }
  }

  /** Applying one more creation. */
  lemma CreateApplied(
    original: Document, changes: seq<Change>, k: nat, document: Document, renames: Renames,
    touched: set<(Module, string)>,
    next: Document)
    requires k < |changes| && Applied(original, changes, k, document, renames, touched)
    requires changes[k].Create? && Applicable(original, changes, k)
    requires next == document[changes[k].m := Items(document, changes[k].m) + [changes[k].value]]
    ensures Applied(original, changes, k + 1, next, renames, touched + {KeyAt(changes, k)})
  {
    forall m: Module, i: nat | i < |Items(original, m)|
      ensures ItemFollows(original, next, renames, touched + {KeyAt(changes, k)}, m, i)
    {
      assert ItemFollows(original, document, renames, touched, m, i);
    }
    var count := k + 1;
    KeysGrow(changes, k, touched);
    forall j: nat | j < count
      ensures MergedAt(original, next, changes, j)
    {
      assert j < k ==> MergedAt(original, document, changes, j);
    }
    forall m: Module
      ensures Grown(original, next, changes, count, m)
    {
      GrownNext(original, document, next, changes, k, m);
    }
  }

  /** The change loop of `build_candidate`: every update is located in the original document, so names may be
      swapped. */
  method ApplyChanges(original: Document, changes: seq<Change>)
    returns (result: Result<(Document, Renames), EditError>, ghost touched: set<(Module, string)>)
    requires UniqueNames(original) && forall k | 0 <= k < |changes| :: ChangeOk(changes[k])
    ensures result.Ok? ==> Applied(original, changes, |changes|, result.value.0, result.value.1, touched)
    ensures result.Err? ==> exists k: nat | k < |changes| ::
      && !Applicable(original, changes, k) && (forall j: nat | j < k :: Applicable(original, changes, j))
      && result.error == Obstacle(changes, k)
  {
    var document, renames: Renames := original, map[];
    var keys: set<(Module, string)> := {};
    touched := {};
    for k := 0 to |changes|
      invariant keys == touched
      invariant Applied(original, changes, k, document, renames, touched)
    {
      var change := changes[k];
      var name := Name(ValueOf(change));
      if name.None? {
        assert !Applicable(original, changes, k);
        return Err(UnsupportedSource), touched;
      }
      var key := KeyOf(change, name.value);
      if key in keys {
        assert !Applicable(original, changes, k);
        return Err(DuplicateTarget), touched;
      }
      if change.Update? {
        var index := Position(Items(original, change.m), change.originalName);
        if index.None? {
          assert !Applicable(original, changes, k);
          return Err(NotFound), touched;
        }
        assert ItemFollows(original, document, renames, touched, change.m, index.value);
        var items := Items(document, change.m);
        var merged := MergeChanged.MergeChanged(items[index.value], change.before, change.after);
        var next := document[change.m := items[index.value := merged]];
        var nextRenames := if change.originalName == name.value then renames
          else renames[(change.m, change.originalName) := name.value];
        UpdateApplied(original, changes, k, document, renames, touched, index.value, next, nextRenames);
        document, renames := next, nextRenames;
      } else {
        var next := document[change.m := Items(document, change.m) + [change.value]];
        CreateApplied(original, changes, k, document, renames, touched, next);
        document := next;
      }
      keys := keys + {key};
      touched := touched + {key};
    }
    result := Ok((document, renames));
  }

  // ---------------------------------------------------------------- the reference graph

  /** The position a reference resolves to. */
  function Resolve(document: Document, site: Site, text: string): Option<nat> {
    Position(Items(document, site.target), NameAt(site, text))
  }

  predicate ColonFree(name: string) {
    ':' !in name
  }

  lemma {:induction false} ColonOfName(name: string, rest: string)
    requires ColonFree(name) && (rest == "" || rest[0] == ':')
    ensures Colon(name + rest) == |name|
  {
    if name == "" {
      assert name + rest == rest;
    } else {
      assert (name + rest)[1..] == name[1..] + rest;
      ColonOfName(name[1..], rest);
    }
  }

  /** Renaming a rule-set reference changes its name, if that is renamed, and never its selector. */
  lemma SelectorIsKept(name: string, selector: string, renames: Renames)
    requires ColonFree(name) && (selector == "" || selector[0] == ':')
    ensures RenameSelector(name + selector, renames) ==
      (if (RuleSet, name) in renames then renames[(RuleSet, name)] else name) + selector
  {
    ColonOfName(name, selector);
    assert (name + selector)[..|name|] == name && (name + selector)[|name|..] == selector;
  }

  /** Renaming the text of a reference renames the name it refers to. */
  lemma RenamedTextNames(site: Site, text: string, renames: Renames)
    requires site.selector ==> site.target == RuleSet && ColonFree(NewName(renames, RuleSet, ReferencedName(text)))
    ensures NameAt(site, RenamedText(site, text, renames)) == NewName(renames, site.target, NameAt(site, text))
  {
    if site.selector {
      var name, rest := NewName(renames, RuleSet, ReferencedName(text)), text[Colon(text)..];
      ColonOfName(name, rest);
      assert (name + rest)[..|name|] == name;
    }
  }

  /** The rewrite keeps the reference graph: a reference of any item that named position `i` of the original document
      names position `i` of the rewritten one, whatever was renamed, swapped or created. */
  lemma ReferencesKeepTheirTarget(
    original: Document, document: Document, renames: Renames, touched: set<(Module, string)>, final: Document,
    m: Module, j: nat, site: Site, text: string, i: nat)
    requires Follows(original, document, renames, touched) && Rewritten(document, renames, final)
    requires UniqueNames(final)
    requires forall k: nat | k < |Items(final, RuleSet)| && Name(Items(final, RuleSet)[k]).Some? ::
      ColonFree(Name(Items(final, RuleSet)[k]).value)
    requires j < |Items(document, m)| && IsSite(m, Items(document, m)[j], site)
    requires TextAt(Items(document, m)[j], site.path) == Some(text)
    requires Resolve(original, site, text) == Some(i)
    ensures j < |Items(final, m)| && TextAt(Items(final, m)[j], site.path) == Some(RenamedText(site, text, renames))
    ensures Resolve(final, site, RenamedText(site, text, renames)) == Some(i)
  {
    assert ItemsRewritten(Items(document, m), m, renames, Items(final, m));
    SiteIsRenamed(m, Items(document, m)[j], renames, site);
    TargetIsRenamed(original, document, renames, touched, final, site.target, NameAt(site, text), i);
    RenamedTextNames(site, text, renames);
  }

  /** The resource at a position of the original document is found there afterwards, by its new name. */
  lemma TargetIsRenamed(
    original: Document, document: Document, renames: Renames, touched: set<(Module, string)>, final: Document,
    m: Module, name: string, i: nat)
    requires Follows(original, document, renames, touched) && Rewritten(document, renames, final)
    requires UniqueNames(final) && Position(Items(original, m), name) == Some(i)
    ensures i < |Items(final, m)| && Name(Items(final, m)[i]) == Some(NewName(renames, m, name))
    ensures Position(Items(final, m), NewName(renames, m, name)) == Some(i)
  {
    assert ItemFollows(original, document, renames, touched, m, i);
    assert ItemsRewritten(Items(document, m), m, renames, Items(final, m));
    NameIsKept(m, Items(document, m)[i], renames);
  }

  /** In particular, a resource no change addresses keeps every reference. */
  lemma UntouchedResourceKeepsReferences(
    original: Document, document: Document, renames: Renames, touched: set<(Module, string)>, final: Document,
    m: Module, j: nat, name: string, site: Site, text: string, i: nat)
    requires Follows(original, document, renames, touched) && Rewritten(document, renames, final)
    requires UniqueNames(final)
    requires forall k: nat | k < |Items(final, RuleSet)| && Name(Items(final, RuleSet)[k]).Some? ::
      ColonFree(Name(Items(final, RuleSet)[k]).value)
    requires j < |Items(original, m)| && Name(Items(original, m)[j]) == Some(name) && (m, name) !in touched
    requires IsSite(m, Items(original, m)[j], site) && TextAt(Items(original, m)[j], site.path) == Some(text)
    requires Resolve(original, site, text) == Some(i)
    ensures j < |Items(final, m)| && Name(Items(final, m)[j]) == Some(name)
    ensures TextAt(Items(final, m)[j], site.path) == Some(RenamedText(site, text, renames))
    ensures Resolve(final, site, RenamedText(site, text, renames)) == Some(i)
  {
    assert ItemFollows(original, document, renames, touched, m, j);
    ReferencesKeepTheirTarget(original, document, renames, touched, final, m, j, site, text, i);
    assert ItemsRewritten(Items(document, m), m, renames, Items(final, m));
    NameIsKept(m, Items(document, m)[j], renames);
  }
}
