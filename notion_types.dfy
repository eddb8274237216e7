/**
 * The record shapes of the system: the raw page the workspace API returns
 * (`NotionProblemPage`), the normalised node (`ProblemNode`, with the
 * optional fields the roadmap and matrix views read as well) and the tree
 * (`ProblemTree`). A JavaScript `Map` is an insertion-ordered key sequence
 * beside a Dafny `map`.
 */
module NotionTypes {
  import opened Wrappers

  datatype Status = Todo | InProgress | Done | Blocked

  datatype Priority = Low | Medium | High | Critical

  /** One normalised record (`ProblemNode`). */
  datatype Node = Node(
    id: string,
    title: string,
    description: Option<string>,
    parentId: Option<string>,
    children: seq<string>,
    status: Option<Status>,
    priority: Option<Priority>,
    tags: Option<seq<string>>,
    createdAt: string,
    updatedAt: string,
    notionUrl: Option<string>,
    clickUpId: Option<string>,
    impact: Option<real>,
    effort: Option<real>,
    solutionIds: Option<seq<string>>,
    afterIds: Option<seq<string>>,
    beforeIds: Option<seq<string>>,
    problemIds: Option<seq<string>>,
    isObjective: Option<bool>,
    uniqueId: Option<string>)

  /**
   * One property of a raw page, with the shapes the core reads: `title` and
   * `rich_text` as the `plain_text` of their fragments, `relation` as its
   * ids, `status` and `select` as their `name`, `multi_select` as its names.
   */
  datatype PropertyValue = PropertyValue(
    title: Option<seq<string>>,
    richText: Option<seq<string>>,
    relation: Option<seq<string>>,
    status: Option<string>,
    select: Option<string>,
    multiSelect: Option<seq<string>>,
    number: Option<real>)

  /** A raw page record (`NotionProblemPage`), its property bag keyed by name. */
  datatype Page = Page(
    id: string,
    properties: map<string, PropertyValue>,
    createdTime: string,
    lastEditedTime: string,
    url: string)

  /** The keys of an ordered map: each key once, exactly the map's keys. */
  ghost predicate KeysOf<V>(keys: seq<string>, m: map<string, V>)
  {
    && (forall i, j :: 0 <= i < j < |keys| ==> keys[i] != keys[j])
    && (forall k :: k in m <==> k in keys)
  }

  /** Every node is stored under its own id (`nodes.set(page.id, node)`). */
  ghost predicate WellKeyed(m: map<string, Node>)
  {
    forall k :: k in m ==> m[k].id == k
  }

  /** `ProblemTree`: the root and the ordered map of the nodes in the tree. */
  datatype Tree = Tree(root: Option<Node>, keys: seq<string>, nodes: map<string, Node>)
  {
    ghost predicate Valid()
    {
      KeysOf(keys, nodes)
    }
  }

  /**
   * A tree the views can lay out: an ordered map whose nodes sit under
   * their own ids, with the root stored in it.
   */
  ghost predicate Shaped(t: Tree)
  {
    && t.Valid() && WellKeyed(t.nodes)
    && (t.root.Some? ==> t.root.value.id in t.nodes && t.nodes[t.root.value.id] == t.root.value)
  }

  /** `path` steps from each id to one of its children; only the last id may be missing from `m`. */
  ghost predicate ChildSteps(m: map<string, Node>, path: seq<string>)
  {
    forall i :: 0 <= i < |path| - 1 ==> path[i] in m && path[i + 1] in m[path[i]].children
  }

  /** `map.set(k, v)` on an ordered map: a new key goes last, an old one keeps its place. */
  function SetKey(keys: seq<string>, m: map<string, Node>, k: string, v: Node): (r: seq<string>)
    requires KeysOf(keys, m)
    ensures KeysOf(r, m[k := v])
    ensures k in m ==> r == keys
    ensures k !in m ==> r == keys + [k]
  {
    if k in m then keys else keys + [k]
  }

  /** JavaScript truthiness of an optional string. */
  predicate Truthy(s: Option<string>)
  {
    s.Some? && s.value != ""
  }
}
