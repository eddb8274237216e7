/**
 * Record normalisation and relationship repair of `NotionDirectAPI`
 * (src/api/notionDirect.ts): raw pages become nodes, free-text status and
 * priority are classified by keyword, and the parent/child links are made
 * consistent in two passes over the node map.
 */
module NotionDirect {
  import opened Wrappers
  import opened Strings
  import opened NotionTypes
  import opened Seqs

  // ---------------------------------------------------------------------
  // Status and priority classification
  // ---------------------------------------------------------------------

  /** `text.includes(w)` for some keyword `w` of `words`. */
  predicate MentionsAny(text: string, words: seq<string>)
  {
    exists i :: 0 <= i < |words| && Contains(text, words[i])
  }

  const TodoWords: seq<string> := ["open", "todo"]
  const InProgressWords: seq<string> := ["progress", "development", "analysis"]
  const DoneWords: seq<string> := ["done", "closed", "released"]
  const BlockedWords: seq<string> := ["blocked"]

  const LowWords: seq<string> := ["low"]
  const MediumWords: seq<string> := ["medium", "normal"]
  const HighWords: seq<string> := ["high"]
  const CriticalWords: seq<string> := ["critical", "urgent"]

  /** `normalizeStatus`: keyword classification of a status name, first match wins. */
  function NormalizeStatus(status: Option<string>): Option<Status>
  {
    if !Truthy(status) then None
    else
      var text := ToLower(status.value);
      if MentionsAny(text, TodoWords) then Some(Todo)
      else if MentionsAny(text, InProgressWords) then Some(InProgress)
      else if MentionsAny(text, DoneWords) then Some(Done)
      else if MentionsAny(text, BlockedWords) then Some(Blocked)
      else Some(Todo)
  }

  /** `normalizePriority`: keyword classification of a priority name, first match wins. */
  function NormalizePriority(priority: Option<string>): Option<Priority>
  {
    if !Truthy(priority) then None
    else
      var text := ToLower(priority.value);
      if MentionsAny(text, LowWords) then Some(Low)
      else if MentionsAny(text, MediumWords) then Some(Medium)
      else if MentionsAny(text, HighWords) then Some(High)
      else if MentionsAny(text, CriticalWords) then Some(Critical)
      else Some(Medium)
  }

  /**
   * An ordered rule table, the reference reading of both classifiers: the
   * value of the first rule one of whose keywords the text mentions, or the
   * fallback when none does.
   */
  function FirstRule<T>(text: string, rules: seq<(seq<string>, T)>, fallback: T): T
  {
    if rules == [] then fallback
    else if MentionsAny(text, rules[0].0) then rules[0].1
    else FirstRule(text, rules[1..], fallback)
  }

  const StatusRules: seq<(seq<string>, Status)> :=
    [(TodoWords, Todo), (InProgressWords, InProgress), (DoneWords, Done), (BlockedWords, Blocked)]

  const PriorityRules: seq<(seq<string>, Priority)> :=
    [(LowWords, Low), (MediumWords, Medium), (HighWords, High), (CriticalWords, Critical)]

  /**
   * The status is undefined exactly when the name is absent or empty;
   * otherwise it is the first rule the lower-cased name matches, `todo`
   * when it matches none.
   */
  lemma NormalizeStatusByRules(status: Option<string>)
    ensures NormalizeStatus(status).None? <==> (status.None? || status.value == "")
    ensures Truthy(status) ==> NormalizeStatus(status) == Some(FirstRule(ToLower(status.value), StatusRules, Todo))
  {
    if Truthy(status) {
      var text := ToLower(status.value);
      var r1, r2, r3 := StatusRules[1..], StatusRules[2..], StatusRules[3..];
      assert r1[1..] == r2 && r2[1..] == r3 && r3[1..] == [];
      assert FirstRule(text, r3, Todo) == if MentionsAny(text, BlockedWords) then Blocked else Todo;
      assert FirstRule(text, r2, Todo) == if MentionsAny(text, DoneWords) then Done else FirstRule(text, r3, Todo);
      assert FirstRule(text, r1, Todo) == if MentionsAny(text, InProgressWords) then InProgress else FirstRule(text, r2, Todo);
    }
  }

  /**
   * The priority is undefined exactly when the name is absent or empty;
   * otherwise it is the first rule the lower-cased name matches, `medium`
   * when it matches none.
   */
  lemma NormalizePriorityByRules(priority: Option<string>)
    ensures NormalizePriority(priority).None? <==> (priority.None? || priority.value == "")
    ensures Truthy(priority) ==> NormalizePriority(priority) == Some(FirstRule(ToLower(priority.value), PriorityRules, Medium))
  {
    if Truthy(priority) {
      var text := ToLower(priority.value);
      var r1, r2, r3 := PriorityRules[1..], PriorityRules[2..], PriorityRules[3..];
      assert r1[1..] == r2 && r2[1..] == r3 && r3[1..] == [];
      assert FirstRule(text, r3, Medium) == if MentionsAny(text, CriticalWords) then Critical else Medium;
      assert FirstRule(text, r2, Medium) == if MentionsAny(text, HighWords) then High else FirstRule(text, r3, Medium);
      assert FirstRule(text, r1, Medium) == if MentionsAny(text, MediumWords) then Medium else FirstRule(text, r2, Medium);
    }
  }

  /** Matching ignores case: a name and its lower-case form classify alike. */
  lemma NormalizeIgnoresCase(s: string)
    ensures NormalizeStatus(Some(ToLower(s))) == NormalizeStatus(Some(s))
    ensures NormalizePriority(Some(ToLower(s))) == NormalizePriority(Some(s))
  {
    ToLowerIdempotent(s);
  }

  /**
   * First match wins: a name mentioning "progress" but neither "open" nor
   * "todo" is in progress even when it also mentions "blocked" (so
   * "Blocked in progress" is in progress).
   */
  lemma InProgressBeforeBlocked(s: string)
    requires !Contains(ToLower(s), "open") && !Contains(ToLower(s), "todo")
    requires Contains(ToLower(s), "progress") && Contains(ToLower(s), "blocked")
    ensures NormalizeStatus(Some(s)) == Some(InProgress)
  {
    assert MentionsAny(ToLower(s), InProgressWords) by {
      assert Contains(ToLower(s), InProgressWords[0]);
    }
    assert !MentionsAny(ToLower(s), TodoWords) by {
      forall i | 0 <= i < |TodoWords| ensures !Contains(ToLower(s), TodoWords[i]) {
      }
    }
  }

  // ---------------------------------------------------------------------
  // Page to node (`convertToNodes`, one page)
  // ---------------------------------------------------------------------

  /** `page.properties[name]`, when present. */
  function Prop(page: Page, name: string): Option<PropertyValue>
  {
    if name in page.properties then Some(page.properties[name]) else None
  }

  /** `fragments?.[0]?.plain_text`. */
  function FirstText(fragments: Option<seq<string>>): Option<string>
  {
    if fragments.Some? && |fragments.value| > 0 then Some(fragments.value[0]) else None
  }

  /** JavaScript's `a || b` on optional strings. */
  function OrElse(a: Option<string>, b: Option<string>): Option<string>
  {
    if Truthy(a) then a else b
  }

  /** `page.properties.Title || page.properties.title || page.properties.Name`. */
  function TitleProperty(page: Page): Option<PropertyValue>
  {
    if "Title" in page.properties then Some(page.properties["Title"])
    else if "title" in page.properties then Some(page.properties["title"])
    else Prop(page, "Name")
  }

  /** `titleProperty?.title?.[0]?.plain_text || 'Untitled'`. */
  function TitleOf(page: Page): string
  {
    var text := match TitleProperty(page) {
      case Some(p) => FirstText(p.title)
      case None => None
    };
    if Truthy(text) then text.value else "Untitled"
  }

  /** The ids of relation property `name`, `[]` when it is missing (`?.relation || []`). */
  function RelationIds(page: Page, name: string): seq<string>
  {
    match Prop(page, name) {
      case Some(p) => p.relation.GetOr([])
      case None => []
    }
  }

  /** `parentRelation[0]?.id || null`. */
  function ParentIdOf(page: Page): Option<string>
  {
    var rel := RelationIds(page, "Parent Problem");
    if |rel| > 0 && rel[0] != "" then Some(rel[0]) else None
  }

  /** The first `plain_text` of rich-text property `name`. */
  function RichTextOf(page: Page, name: string): Option<string>
  {
    match Prop(page, name) {
      case Some(p) => FirstText(p.richText)
      case None => None
    }
  }

  /** The ClickUp id: the first non-empty of four alternative property names. */
  function ClickUpIdOf(page: Page): Option<string>
  {
    OrElse(RichTextOf(page, "ID"), OrElse(RichTextOf(page, "ClickUp ID"),
      OrElse(RichTextOf(page, "ClickUp_ID"), RichTextOf(page, "clickup_id"))))
  }

  /** `(Status?.status || Status?.select)?.name`. */
  function StatusNameOf(page: Page): Option<string>
  {
    match Prop(page, "Status") {
      case Some(p) => if p.status.Some? then p.status else p.select
      case None => None
    }
  }

  /** `Priority?.select?.name`. */
  function PriorityNameOf(page: Page): Option<string>
  {
    match Prop(page, "Priority") {
      case Some(p) => p.select
      case None => None
    }
  }

  /** `Tags?.multi_select?.map(tag => tag.name) || []`. */
  function TagsOf(page: Page): seq<string>
  {
    match Prop(page, "Tags") {
      case Some(p) => p.multiSelect.GetOr([])
      case None => []
    }
  }

  /** The node `convertToNodes` builds for one page, before any relationship repair. */
  function ConvertPage(page: Page): (r: Node)
    ensures r.id == page.id
    ensures r.title != ""
    ensures r.parentId.Some? ==>
              && r.parentId.value != ""
              && |RelationIds(page, "Parent Problem")| > 0
              && RelationIds(page, "Parent Problem")[0] == r.parentId.value
    ensures r.parentId.None? ==> RelationIds(page, "Parent Problem") == [] || RelationIds(page, "Parent Problem")[0] == ""
    ensures r.children == RelationIds(page, "Child Problem(s)")
    ensures r.tags.Some?
    ensures r.impact.None? && r.effort.None? && r.afterIds.None? && r.beforeIds.None? && r.problemIds.None?
  {
    Node(
      id := page.id,
      title := TitleOf(page),
      description := RichTextOf(page, "Description"),
      parentId := ParentIdOf(page),
      children := RelationIds(page, "Child Problem(s)"),
      status := NormalizeStatus(StatusNameOf(page)),
      priority := NormalizePriority(PriorityNameOf(page)),
      tags := Some(TagsOf(page)),
      createdAt := page.createdTime,
      updatedAt := page.lastEditedTime,
      notionUrl := Some(page.url),
      clickUpId := ClickUpIdOf(page),
      impact := None,
      effort := None,
      solutionIds := None,
      afterIds := None,
      beforeIds := None,
      problemIds := None,
      isObjective := None,
      uniqueId := None)
  }

  /**
   * The title is the first fragment of the first title property present
   * (Title, then title, then Name) when that fragment is non-empty, and
   * "Untitled" otherwise; a present but empty Title does not fall back to
   * the later names.
   */
  lemma TitleRule(page: Page)
    ensures "Title" in page.properties ==>
      ConvertPage(page).title == OrElse(FirstText(page.properties["Title"].title), Some("Untitled")).value
    ensures "Title" !in page.properties && "title" in page.properties ==>
      ConvertPage(page).title == OrElse(FirstText(page.properties["title"].title), Some("Untitled")).value
    ensures "Title" !in page.properties && "title" !in page.properties && "Name" in page.properties ==>
      ConvertPage(page).title == OrElse(FirstText(page.properties["Name"].title), Some("Untitled")).value
    ensures "Title" !in page.properties && "title" !in page.properties && "Name" !in page.properties ==>
      ConvertPage(page).title == "Untitled"
  {
  }

  // ---------------------------------------------------------------------
  // Relationship repair (`buildRelationships`)
  // ---------------------------------------------------------------------

  /** Repair changes only `children` and `parentId`. */
  predicate SameFields(a: Node, b: Node)
  {
    a.(children := b.children, parentId := b.parentId) == b
  }

  /** `b` is `a` followed by ids each of which is absent from everything before it. */
  ghost predicate Extends(a: seq<string>, b: seq<string>)
  {
    && |a| <= |b|
    && b[..|a|] == a
    && forall j :: |a| <= j < |b| ==> b[j] !in b[..j]
  }

  lemma ExtendsTrans(a: seq<string>, b: seq<string>, c: seq<string>)
    requires Extends(a, b) && Extends(b, c)
    ensures Extends(a, c)
  {
    assert c[..|a|] == c[..|b|][..|a|];
  }

  lemma ExtendsPush(a: seq<string>, b: seq<string>, x: string)
    requires Extends(a, b) && x !in b
    ensures Extends(a, b + [x])
  {
    assert (b + [x])[..|b|] == b;
    assert (b + [x])[..|a|] == b[..|a|];
  }

  /** Node `k` exists in `m` and lists `c` among its children. */
  predicate Lists(m: map<string, Node>, k: string, c: string)
  {
    k in m && c in m[k].children
  }

  /** The first key of `ks` whose node lists `c` among its children. */
  function FirstLister(ks: seq<string>, m: map<string, Node>, c: string): (r: Option<string>)
    ensures r.Some? ==> r.value in ks && Lists(m, r.value, c)
  {
    if ks == [] then None
    else if Lists(m, ks[0], c) then Some(ks[0])
    else FirstLister(ks[1..], m, c)
  }

  /** Extending the scanned keys by one: the lister found so far stays first. */
  lemma {:induction false} FirstListerSnoc(ks: seq<string>, m: map<string, Node>, k: string, c: string)
    ensures FirstLister(ks + [k], m, c)
         == if FirstLister(ks, m, c).Some? then FirstLister(ks, m, c)
            else if Lists(m, k, c) then Some(k) else None
  {
    if ks != [] {
      assert (ks + [k])[1..] == ks[1..] + [k];
      FirstListerSnoc(ks[1..], m, k, c);
    }
  }

  /** Some key of `ks` lists `c` exactly when there is a first such key. */
  lemma {:induction false} FirstListerExists(ks: seq<string>, m: map<string, Node>, c: string, k: string)
    requires k in ks && Lists(m, k, c)
    ensures FirstLister(ks, m, c).Some?
  {
    if ks[0] != k {
      FirstListerExists(ks[1..], m, c, k);
    }
  }

  /** Each id appended to `k`'s children (relative to `orig`) is a node whose parent is `k`. */
  ghost predicate AppendsJustified(orig: map<string, Node>, m: map<string, Node>)
    requires forall k :: k in m ==> k in orig
  {
    forall k, j :: k in m && |orig[k].children| <= j < |m[k].children| ==>
      m[k].children[j] in m && m[m[k].children[j]].parentId == Some(k)
  }

  /** Node `n`'s parent, when it exists in `m`, lists `n`. */
  ghost predicate ParentListsChild(m: map<string, Node>, n: string)
    requires n in m
  {
    m[n].parentId.Some? && m[n].parentId.value in m ==> n in m[m[n].parentId.value].children
  }

  /** The parent `buildRelationships` gives node `k`: its own, else the first lister in map order. */
  function ResolvedParent(keys: seq<string>, orig: map<string, Node>, k: string): Option<string>
    requires k in orig
  {
    if orig[k].parentId.Some? then orig[k].parentId else FirstLister(keys, orig, k)
  }

  /** What relationship repair guarantees of its result `r` against its input `orig`. */
  ghost predicate Resolved(keys: seq<string>, orig: map<string, Node>, r: map<string, Node>)
  {
    && KeysOf(keys, r) && WellKeyed(r) && r.Keys == orig.Keys
    && (forall k :: k in r ==> SameFields(orig[k], r[k]) && Extends(orig[k].children, r[k].children))
    && (forall k :: k in r ==> r[k].parentId == ResolvedParent(keys, orig, k))
    && AppendsJustified(orig, r)
    && (forall n :: n in r ==> ParentListsChild(r, n))
  }

  /** Every node of `m` has the parent repair resolves from the first `i` keys. */
  ghost predicate ParentsUpTo(keys: seq<string>, orig: map<string, Node>, m: map<string, Node>, i: nat)
    requires i <= |keys|
  {
    forall k :: k in m && k in orig ==> m[k].parentId == ResolvedParent(keys[..i], orig, k)
  }

  /** Every node among the first `i` keys, and every node `orig` leaves parentless, is listed by its parent. */
  ghost predicate ClosedUpTo(keys: seq<string>, orig: map<string, Node>, m: map<string, Node>, i: nat)
    requires i <= |keys|
  {
    forall n :: n in m && n in orig && (n in keys[..i] || orig[n].parentId.None?) ==> ParentListsChild(m, n)
  }

  /** The state of the first pass after the first `i` keys. */
  ghost predicate FirstPassInv(keys: seq<string>, orig: map<string, Node>, m: map<string, Node>, i: nat)
    requires i <= |keys|
  {
    Framed(keys, orig, m) && ParentsUpTo(keys, orig, m, i) && ClosedUpTo(keys, orig, m, i)
  }

  /** The common frame of both passes: same keys and fields, children only extended. */
  ghost predicate Framed(keys: seq<string>, orig: map<string, Node>, m: map<string, Node>)
  {
    && KeysOf(keys, m) && WellKeyed(m) && m.Keys == orig.Keys
    && (forall k :: k in m ==> SameFields(orig[k], m[k]) && Extends(orig[k].children, m[k].children))
    && AppendsJustified(orig, m)
  }

  /** Appending child `x` of `p` to `p`'s children keeps the shape of the map. */
  lemma PushKeepsShape(keys: seq<string>, orig: map<string, Node>, m: map<string, Node>, p: string, x: string)
    requires Framed(keys, orig, m)
    requires p in m && x !in m[p].children
    ensures var r := m[p := m[p].(children := m[p].children + [x])];
      && KeysOf(keys, r) && WellKeyed(r) && r.Keys == orig.Keys
      && (forall k :: k in r ==> SameFields(orig[k], r[k]) && Extends(orig[k].children, r[k].children))
      && (forall k :: k in r ==> r[k].parentId == m[k].parentId)
  {
    ExtendsPush(orig[p].children, m[p].children, x);
  }

  /** Appending child `x` of `p` to `p`'s children keeps every append justified. */
  lemma PushKeepsJustified(orig: map<string, Node>, m: map<string, Node>, p: string, x: string)
    requires forall k :: k in m ==> k in orig && |orig[k].children| <= |m[k].children|
    requires AppendsJustified(orig, m)
    requires p in m && x in m && m[x].parentId == Some(p)
    ensures var r := m[p := m[p].(children := m[p].children + [x])];
      AppendsJustified(orig, r)
  {
    var r := m[p := m[p].(children := m[p].children + [x])];
    forall k, j | k in r && |orig[k].children| <= j < |r[k].children|
      ensures r[k].children[j] in r && r[r[k].children[j]].parentId == Some(k)
    {
      if k == p && j == |m[p].children| {
      } else {
        assert r[k].children[j] == m[k].children[j];
      }
    }
  }

  /** Appending child `x` of `p` to `p`'s children: `x` is now listed, and no closure fact is lost. */
  lemma PushKeepsClosure(m: map<string, Node>, p: string, x: string)
    requires p in m && x in m && m[x].parentId == Some(p)
    ensures var r := m[p := m[p].(children := m[p].children + [x])];
      && (forall n :: n in m && ParentListsChild(m, n) ==> ParentListsChild(r, n))
      && ParentListsChild(r, x)
  {
  }

  /** Appending child `x` of `p` to `p`'s children keeps the frame, the parents and every closure fact. */
  lemma PushChild(keys: seq<string>, orig: map<string, Node>, m: map<string, Node>, p: string, x: string)
    requires Framed(keys, orig, m)
    requires p in m && x in m && m[x].parentId == Some(p) && x !in m[p].children
    ensures var r := m[p := m[p].(children := m[p].children + [x])];
      && Framed(keys, orig, r)
      && (forall k :: k in r ==> r[k].parentId == m[k].parentId)
      && (forall n :: n in m && ParentListsChild(m, n) ==> ParentListsChild(r, n))
      && ParentListsChild(r, x)
  {
    PushKeepsShape(keys, orig, m, p, x);
    PushKeepsJustified(orig, m, p, x);
    PushKeepsClosure(m, p, x);
  }

  /** The first pass after step A for key `keys[i]`: that node's parent lists it. */
  ghost predicate ParentLinked(keys: seq<string>, orig: map<string, Node>, m: map<string, Node>, i: nat)
    requires i < |keys|
  {
    Framed(keys, orig, m) && ParentsUpTo(keys, orig, m, i) && ClosedUpTo(keys, orig, m, i + 1)
  }

  /** First pass, step A for node `keys[i]`: its parent lists it afterwards. */
  method LinkToParent(keys: seq<string>, orig: map<string, Node>, m: map<string, Node>, i: nat)
    returns (r: map<string, Node>)
    requires i < |keys| && KeysOf(keys, orig) && WellKeyed(orig)
    requires FirstPassInv(keys, orig, m, i)
    ensures ParentLinked(keys, orig, r, i)
  {
    var x := keys[i];
    PrefixSnoc(keys, i);
    r := m;
    if m[x].parentId.Some? {
      var p := m[x].parentId.value;
      if p in m && x !in m[p].children {
        PushChild(keys, orig, m, p, x);
        r := m[p := m[p].(children := m[p].children + [x])];
      }
    }
  }

  /** `m` is `mA` with each parentless node among `cs` given parent `x`. */
  ghost predicate Adopted(mA: map<string, Node>, m: map<string, Node>, x: string, cs: seq<string>)
  {
    && m.Keys == mA.Keys
    && forall k :: k in m ==>
         m[k] == if mA[k].parentId.None? && k in cs then mA[k].(parentId := Some(x)) else mA[k]
  }

  /** Adoption keeps the frame of the first pass. */
  lemma AdoptedFramed(keys: seq<string>, orig: map<string, Node>, mA: map<string, Node>, m: map<string, Node>,
                      x: string, cs: seq<string>)
    requires Framed(keys, orig, mA) && Adopted(mA, m, x, cs)
    ensures Framed(keys, orig, m)
  {
    AdoptedKeepsFields(orig, mA, m, x, cs);
    AdoptedKeepsAppends(orig, mA, m, x, cs);
  }

  /** Adoption changes parent links only. */
  lemma AdoptedKeepsFields(orig: map<string, Node>, mA: map<string, Node>, m: map<string, Node>, x: string, cs: seq<string>)
    requires Adopted(mA, m, x, cs) && mA.Keys == orig.Keys
    requires forall k :: k in mA ==> SameFields(orig[k], mA[k]) && Extends(orig[k].children, mA[k].children)
    ensures forall k :: k in m ==> m[k].id == mA[k].id
    ensures forall k :: k in m ==> SameFields(orig[k], m[k]) && Extends(orig[k].children, m[k].children)
  {
    forall k | k in m
      ensures m[k].id == mA[k].id && m[k].children == mA[k].children
      ensures SameFields(orig[k], m[k])
    {
      assert SameFields(orig[k], mA[k]);
    }
  }

  /** Adoption leaves alone the nodes that already have a parent, so every appended child still names its parent. */
  lemma AdoptedKeepsAppends(orig: map<string, Node>, mA: map<string, Node>, m: map<string, Node>, x: string, cs: seq<string>)
    requires Adopted(mA, m, x, cs) && mA.Keys == orig.Keys
    requires forall k :: k in mA ==> |orig[k].children| <= |mA[k].children|
    requires AppendsJustified(orig, mA)
    ensures AppendsJustified(orig, m)
  {
    forall k, j | k in m && |orig[k].children| <= j < |m[k].children|
      ensures m[k].children[j] in m && m[m[k].children[j]].parentId == Some(k)
    {
      assert m[k].children == mA[k].children;
      var c := mA[k].children[j];
      assert mA[c].parentId == Some(k);
    }
  }



  /** Adoption by `keys[i]` of its listed children gives the parents of the first `i + 1` keys. */
  lemma AdoptedParents(keys: seq<string>, orig: map<string, Node>, mA: map<string, Node>, m: map<string, Node>, i: nat)
    requires i < |keys| && KeysOf(keys, orig)
    requires ParentLinked(keys, orig, mA, i)
    requires Adopted(mA, m, keys[i], mA[keys[i]].children)
    ensures ParentsUpTo(keys, orig, m, i + 1)
  {
    var x := keys[i];
    PrefixSnoc(keys, i);
    var cs := mA[x].children;
    forall k | k in m
      ensures m[k].parentId == ResolvedParent(keys[..i + 1], orig, k)
    {
      FirstListerSnoc(keys[..i], orig, x, k);
      if orig[k].parentId.None? && FirstLister(keys[..i], orig, k).None? && k in cs {
        var j :| 0 <= j < |cs| && cs[j] == k;
        assert j < |orig[x].children|;
        assert orig[x].children[j] == k;
      }
    }
  }

  /** Adoption by `keys[i]` closes every node of the first `i + 1` keys and every parentless one. */
  lemma AdoptedClosure(keys: seq<string>, orig: map<string, Node>, mA: map<string, Node>, m: map<string, Node>, i: nat)
    requires i < |keys|
    requires ParentLinked(keys, orig, mA, i)
    requires Adopted(mA, m, keys[i], mA[keys[i]].children)
    ensures ClosedUpTo(keys, orig, m, i + 1)
  {
    var x := keys[i];
    forall n | n in m && (n in keys[..i + 1] || orig[n].parentId.None?)
      ensures ParentListsChild(m, n)
    {
      if mA[n].parentId.None? && m[n].parentId.Some? {
        assert n in mA[x].children;
        assert m[x].children == mA[x].children;
      } else {
        assert m[n].parentId == mA[n].parentId;
        if mA[n].parentId.Some? && mA[n].parentId.value in m {
          assert m[mA[n].parentId.value].children == mA[mA[n].parentId.value].children;
        }
      }
    }
  }

  /** Gives each parentless node among `cs` the parent `x`. */
  method AdoptAll(m0: map<string, Node>, x: string, cs: seq<string>) returns (m: map<string, Node>)
    ensures Adopted(m0, m, x, cs)
  {
    m := m0;
    for j := 0 to |cs|
      invariant Adopted(m0, m, x, cs[..j])
    {
      var c := cs[j];
      PrefixSnoc(cs, j);
      if c in m && m[c].parentId.None? {
        m := m[c := m[c].(parentId := Some(x))];
      }
    }
    PrefixFull(cs);
  }

  /** First pass, step B for node `keys[i]`: each listed child without a parent gets this node. */
  method AdoptChildren(keys: seq<string>, orig: map<string, Node>, mA: map<string, Node>, i: nat)
    returns (m: map<string, Node>)
    requires i < |keys| && KeysOf(keys, orig) && WellKeyed(orig)
    requires ParentLinked(keys, orig, mA, i)
    ensures FirstPassInv(keys, orig, m, i + 1)
  {
    var x := keys[i];
    m := AdoptAll(mA, x, mA[x].children);
    AdoptedStep(keys, orig, mA, m, i);
  }

  /** Adoption by `keys[i]` after its parent link restores the first-pass invariant for `i + 1` keys. */
  lemma AdoptedStep(keys: seq<string>, orig: map<string, Node>, mA: map<string, Node>, m: map<string, Node>, i: nat)
    requires i < |keys| && KeysOf(keys, orig)
    requires ParentLinked(keys, orig, mA, i)
    requires Adopted(mA, m, keys[i], mA[keys[i]].children)
    ensures FirstPassInv(keys, orig, m, i + 1)
  {
    AdoptedFramed(keys, orig, mA, m, keys[i], mA[keys[i]].children);
    AdoptedParents(keys, orig, mA, m, i);
    AdoptedClosure(keys, orig, mA, m, i);
  }

  /** The second pass: parents fixed by the first pass, self-parented nodes listed, only appends. */
  ghost predicate SecondPassInv(keys: seq<string>, orig: map<string, Node>, m1: map<string, Node>, m: map<string, Node>)
  {
    && Framed(keys, orig, m) && m1.Keys == orig.Keys
    && (forall k :: k in m ==> m[k].parentId == m1[k].parentId)
    && (forall n :: n in m && m[n].parentId == Some(n) ==> n in m[n].children)
  }

  /** Every node of `bs` other than `a` that names `a` as its parent is among `a`'s children. */
  ghost predicate ListsNamed(m: map<string, Node>, a: string, bs: seq<string>)
    requires a in m
  {
    forall b :: b in bs && b in m && b != a && m[b].parentId == Some(a) ==> b in m[a].children
  }

  /** `m` has the keys and parents of `m0`, and every node's children extend those in `m0`. */
  ghost predicate Grown(m0: map<string, Node>, m: map<string, Node>)
  {
    && m.Keys == m0.Keys
    && forall k :: k in m ==> m[k].parentId == m0[k].parentId && m0[k].children <= m[k].children
  }

  lemma GrownTrans(m0: map<string, Node>, m1: map<string, Node>, m2: map<string, Node>)
    requires Grown(m0, m1) && Grown(m1, m2)
    ensures Grown(m0, m2)
  {
    forall k | k in m2
      ensures m0[k].children <= m2[k].children
    {
      assert m1[k].children <= m2[k].children;
    }
  }

  /** A row listed before stays listed when the map only grows. */
  lemma ListsNamedGrown(m0: map<string, Node>, m: map<string, Node>, a: string, bs: seq<string>)
    requires a in m0 && Grown(m0, m) && ListsNamed(m0, a, bs)
    ensures ListsNamed(m, a, bs)
  {
    forall b | b in bs && b in m && b != a && m[b].parentId == Some(a)
      ensures b in m[a].children
    {
      var j :| 0 <= j < |m0[a].children| && m0[a].children[j] == b;
      assert m[a].children[j] == b;
    }
  }

  /** One append keeps the map grown and the rows listed so far. */
  lemma PushGrows(m: map<string, Node>, a: string, b: string, bs: seq<string>)
    requires a in m && b in m && a != b && m[b].parentId == Some(a)
    requires ListsNamed(m, a, bs)
    ensures var r := m[a := m[a].(children := m[a].children + [b])];
      ListsNamed(r, a, bs + [b]) && Grown(m, r)
  {
    var r := m[a := m[a].(children := m[a].children + [b])];
    assert m[a].children <= r[a].children;
    forall c | c in bs + [b] && c in r && c != a && r[c].parentId == Some(a)
      ensures c in r[a].children
    {
      if c != b {
        var j :| 0 <= j < |m[a].children| && m[a].children[j] == c;
        assert r[a].children[j] == c;
      }
    }
  }

  /** A node that needs no append leaves the row listed. */
  lemma ListsNamedSkip(m: map<string, Node>, a: string, b: string, bs: seq<string>)
    requires a in m && b in m && ListsNamed(m, a, bs)
    requires !(a != b && m[b].parentId == Some(a) && b !in m[a].children)
    ensures ListsNamed(m, a, bs + [b])
  {
  }

  /** One append of the second pass keeps its invariant and every child already listed. */
  lemma SecondPassPush(keys: seq<string>, orig: map<string, Node>, m1: map<string, Node>, m: map<string, Node>,
                       a: string, b: string, bs: seq<string>)
    requires SecondPassInv(keys, orig, m1, m)
    requires a in m && b in m && a != b && m[b].parentId == Some(a) && b !in m[a].children
    requires ListsNamed(m, a, bs)
    ensures var r := m[a := m[a].(children := m[a].children + [b])];
      && SecondPassInv(keys, orig, m1, r) && ListsNamed(r, a, bs + [b]) && Grown(m, r)
  {
    PushChild(keys, orig, m, a, b);
    PushGrows(m, a, b, bs);
    var r := m[a := m[a].(children := m[a].children + [b])];
    forall n | n in r && r[n].parentId == Some(n)
      ensures n in r[n].children
    {
      if n == a {
        assert a in m[a].children;
        assert m[a].children <= r[a].children;
      }
    }
  }

  /** Second pass, one pair: node `b` naming `a` as its parent is appended to `a`'s children when missing. */
  method AppendIfNamed(keys: seq<string>, ghost orig: map<string, Node>, ghost m1: map<string, Node>,
                       ghost m0: map<string, Node>, m: map<string, Node>, a: string, b: string, ghost bs: seq<string>)
    returns (r: map<string, Node>)
    requires a in m && b in m && SecondPassInv(keys, orig, m1, m) && Grown(m0, m) && ListsNamed(m, a, bs)
    ensures SecondPassInv(keys, orig, m1, r) && Grown(m0, r) && ListsNamed(r, a, bs + [b])
  {
    r := m;
    if a != b && m[b].parentId == Some(a) && b !in m[a].children {
      SecondPassPush(keys, orig, m1, m, a, b, bs);
      r := m[a := m[a].(children := m[a].children + [b])];
      GrownTrans(m0, m, r);
    } else {
      ListsNamedSkip(m, a, b, bs);
    }
  }

  /** Second pass, row `a`: every other node naming `a` as parent is appended to `a`'s children when missing. */
  method AppendNamedChildren(keys: seq<string>, ghost orig: map<string, Node>, ghost m1: map<string, Node>,
                             m0: map<string, Node>, a: string)
    returns (m: map<string, Node>)
    requires a in m0 && SecondPassInv(keys, orig, m1, m0)
    ensures SecondPassInv(keys, orig, m1, m) && Grown(m0, m)
    ensures ListsNamed(m, a, keys)
  {
    m := m0;
    for j := 0 to |keys|
      invariant SecondPassInv(keys, orig, m1, m) && Grown(m0, m)
      invariant ListsNamed(m, a, keys[..j])
    {
      PrefixSnoc(keys, j);
      m := AppendIfNamed(keys, orig, m1, m0, m, a, keys[j], keys[..j]);
    }
    PrefixFull(keys);
  }

  /** After both passes every node whose parent exists is listed by it. */
  lemma SecondPassCloses(keys: seq<string>, orig: map<string, Node>, m1: map<string, Node>, m: map<string, Node>)
    requires SecondPassInv(keys, orig, m1, m)
    requires forall a :: a in keys && a in m ==> ListsNamed(m, a, keys)
    ensures forall n :: n in m ==> ParentListsChild(m, n)
  {
    forall n | n in m
      ensures ParentListsChild(m, n)
    {
      if m[n].parentId.Some? && m[n].parentId.value in m && m[n].parentId.value != n {
        assert ListsNamed(m, m[n].parentId.value, keys);
      }
    }
  }

  /** The first pass of `buildRelationships` over every key, in map order. */
  method FirstPass(keys: seq<string>, orig: map<string, Node>) returns (m: map<string, Node>)
    requires KeysOf(keys, orig) && WellKeyed(orig)
    ensures FirstPassInv(keys, orig, m, |keys|)
  {
    m := orig;
    assert keys[..0] == [];
    for i := 0 to |keys|
      invariant FirstPassInv(keys, orig, m, i)
    {
      m := LinkToParent(keys, orig, m, i);
      m := AdoptChildren(keys, orig, m, i);
    }
  }

  /** A row listed before stays listed across the appends of a later row. */
  lemma RowsStayListed(keys: seq<string>, prev: map<string, Node>, m: map<string, Node>, i: nat)
    requires i < |keys| && Grown(prev, m) && keys[i] in m
    requires forall a :: a in keys[..i] && a in prev ==> ListsNamed(prev, a, keys)
    requires ListsNamed(m, keys[i], keys)
    ensures forall a :: a in keys[..i + 1] && a in m ==> ListsNamed(m, a, keys)
  {
    PrefixSnoc(keys, i);
    forall a | a in keys[..i + 1] && a in m
      ensures ListsNamed(m, a, keys)
    {
      if a != keys[i] {
        ListsNamedGrown(prev, m, a, keys);
      }
    }
  }

  /** The second pass of `buildRelationships`: every row, in map order. */
  method SecondPass(keys: seq<string>, ghost orig: map<string, Node>, m1: map<string, Node>)
    returns (m: map<string, Node>)
    requires SecondPassInv(keys, orig, m1, m1)
    ensures SecondPassInv(keys, orig, m1, m)
    ensures forall n :: n in m ==> ParentListsChild(m, n)
  {
    m := m1;
    for i := 0 to |keys|
      invariant SecondPassInv(keys, orig, m1, m)
      invariant forall a :: a in keys[..i] && a in m ==> ListsNamed(m, a, keys)
    {
      ghost var prev := m;
      m := AppendNamedChildren(keys, orig, m1, m, keys[i]);
      RowsStayListed(keys, prev, m, i);
    }
    PrefixFull(keys);
    SecondPassCloses(keys, orig, m1, m);
  }

  /**
   * `buildRelationships`: in map order, a node with a parent is appended to
   * that parent's children when missing, and each listed child without a
   * parent gets this node as its parent; then, for every ordered pair of
   * distinct keys, a node naming another as parent is appended to the
   * other's children when missing.
   */
  method BuildRelationships(keys: seq<string>, orig: map<string, Node>) returns (r: map<string, Node>)
    requires KeysOf(keys, orig) && WellKeyed(orig)
    ensures Resolved(keys, orig, r)
  {
    var m1 := FirstPass(keys, orig);
    PrefixFull(keys);
    r := SecondPass(keys, orig, m1);
  }

  /** Every parent chosen by repair lists its child, and nothing else is ever appended. */
  lemma {:induction false} ResolvedChildren(keys: seq<string>, orig: map<string, Node>, r: map<string, Node>, p: string)
    requires Resolved(keys, orig, r) && p in r
    ensures (set c | c in r[p].children)
         == (set c | c in orig[p].children) + (set c | c in r && r[c].parentId == Some(p))
  {
    var pre := orig[p].children;
    var now := r[p].children;
    forall c | c in now
      ensures c in pre || (c in r && r[c].parentId == Some(p))
    {
      var j :| 0 <= j < |now| && now[j] == c;
      if j < |pre| {
        assert now[..|pre|][j] == c;
      }
    }
    forall c | c in pre
      ensures c in now
    {
      var j :| 0 <= j < |pre| && pre[j] == c;
      assert now[..|pre|][j] == c;
    }
    forall c | c in r && r[c].parentId == Some(p)
      ensures c in now
    {
      assert ParentListsChild(r, c);
    }
  }

  /** A node with no parent after repair is listed by no node at all. */
  lemma {:induction false} ResolvedOrphan(keys: seq<string>, orig: map<string, Node>, r: map<string, Node>, c: string, p: string)
    requires Resolved(keys, orig, r) && c in r && r[c].parentId.None? && p in r
    ensures c !in r[p].children
  {
    if c in r[p].children {
      var j :| 0 <= j < |r[p].children| && r[p].children[j] == c;
      if j < |orig[p].children| {
        assert r[p].children[..|orig[p].children|][j] == c;
        FirstListerExists(keys, orig, c, p);
      }
    }
  }

  /** Repair is idempotent: repairing a repaired map changes nothing. */
  lemma {:induction false} RepairIdempotent(keys: seq<string>, orig: map<string, Node>, r1: map<string, Node>, r2: map<string, Node>)
    requires Resolved(keys, orig, r1) && Resolved(keys, r1, r2)
    ensures r2 == r1
  {
    forall k | k in r2
      ensures r2[k] == r1[k]
    {
      RepairKeepsParent(keys, orig, r1, r2, k);
      RepairKeepsChildren(keys, orig, r1, r2, k);
    }
  }

  /** Repairing a repaired map gives no node a new parent. */
  lemma RepairKeepsParent(keys: seq<string>, orig: map<string, Node>, r1: map<string, Node>, r2: map<string, Node>, k: string)
    requires Resolved(keys, orig, r1) && Resolved(keys, r1, r2) && k in r2
    ensures r2[k].parentId == r1[k].parentId
  {
    if r1[k].parentId.None? {
      var q := FirstLister(keys, r1, k);
      if q.Some? {
        ResolvedOrphan(keys, orig, r1, k, q.value);
      }
    }
  }

  /** Repairing a repaired map appends no child, so every node is unchanged once its parent is. */
  lemma RepairKeepsChildren(keys: seq<string>, orig: map<string, Node>, r1: map<string, Node>, r2: map<string, Node>, k: string)
    requires Resolved(keys, orig, r1) && Resolved(keys, r1, r2) && k in r2
    requires r2[k].parentId == r1[k].parentId
    ensures r2[k] == r1[k]
  {
    var a := r1[k].children;
    var b := r2[k].children;
    assert SameFields(r1[k], r2[k]) && Extends(a, b);
    if |a| < |b| {
      var c := b[|a|];
      assert r2[c].parentId == Some(k);
      RepairKeepsParent(keys, orig, r1, r2, c);
      assert false;
    }
    assert b == b[..|a|];
  }

  // ---------------------------------------------------------------------
  // Page conversion (`convertToNodes`)
  // ---------------------------------------------------------------------

  /** The distinct page ids in order of first occurrence: the key order of the `Map`. */
  function PageIdOrder(pages: seq<Page>): seq<string>
  {
    if pages == [] then []
    else
      var before := PageIdOrder(pages[..|pages| - 1]);
      if pages[|pages| - 1].id in before then before else before + [pages[|pages| - 1].id]
  }

  /** Each page converted and set under its id; a later page with the same id overwrites. */
  function Collected(pages: seq<Page>): map<string, Node>
  {
    if pages == [] then map[]
    else Collected(pages[..|pages| - 1])[pages[|pages| - 1].id := ConvertPage(pages[|pages| - 1])]
  }

  /** The key order lists exactly the collected ids, once each, and every node sits under its own id. */
  lemma {:induction false} CollectedKeyed(pages: seq<Page>)
    ensures KeysOf(PageIdOrder(pages), Collected(pages)) && WellKeyed(Collected(pages))
  {
    if pages != [] {
      CollectedKeyed(pages[..|pages| - 1]);
    }
  }

  /** An id is collected exactly when some page has it, and holds the node of its last such page. */
  lemma {:induction false} CollectedLastWins(pages: seq<Page>, k: string)
    ensures k in Collected(pages) <==> exists i :: 0 <= i < |pages| && pages[i].id == k
    ensures k in Collected(pages) ==>
      exists i :: 0 <= i < |pages| && pages[i].id == k && Collected(pages)[k] == ConvertPage(pages[i])
        && forall j :: i < j < |pages| ==> pages[j].id != k
  {
    if k in Collected(pages) {
      var i := CollectedLast(pages, k);
    } else {
      forall i | 0 <= i < |pages|
        ensures pages[i].id != k
      {
        CollectedFrom(pages, i);
      }
    }
  }

  /** Every page's id is collected. */
  lemma {:induction false} CollectedFrom(pages: seq<Page>, i: nat)
    requires i < |pages|
    ensures pages[i].id in Collected(pages)
  {
    var n := |pages| - 1;
    if i < n {
      CollectedFrom(pages[..n], i);
      assert pages[..n][i] == pages[i];
    }
  }

  /** The last page with id `k`, whose node is the one collected. */
  lemma {:induction false} CollectedLast(pages: seq<Page>, k: string) returns (i: nat)
    requires k in Collected(pages)
    ensures i < |pages| && pages[i].id == k && Collected(pages)[k] == ConvertPage(pages[i])
    ensures forall j :: i < j < |pages| ==> pages[j].id != k
  {
    var n := |pages| - 1;
    if pages[n].id == k {
      return n;
    }
    var init := pages[..n];
    i := CollectedLast(init, k);
    assert pages[i] == init[i];
    forall j | i < j < |pages|
      ensures pages[j].id != k
    {
      if j < n {
        assert pages[j] == init[j];
      }
    }
  }


  /**
   * `convertToNodes`: each page is converted and set under its id, in page
   * order, and the resulting map is repaired by `buildRelationships`.
   */
  method ConvertToNodes(pages: seq<Page>) returns (keys: seq<string>, r: map<string, Node>)
    ensures keys == PageIdOrder(pages)
    ensures Resolved(keys, Collected(pages), r)
  {
    keys := [];
    var nodes: map<string, Node> := map[];
    for i := 0 to |pages|
      invariant keys == PageIdOrder(pages[..i]) && nodes == Collected(pages[..i])
    {
      var page := pages[i];
      var node := ConvertPage(page);
      CollectedKeyed(pages[..i]);
      assert pages[..i + 1][..i] == pages[..i];
      keys := SetKey(keys, nodes, page.id, node);
      nodes := nodes[page.id := node];
    }
    assert pages[..|pages|] == pages;
    CollectedKeyed(pages);
    r := BuildRelationships(keys, nodes);
  }
}
