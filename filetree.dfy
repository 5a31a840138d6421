/** The result-file browser helpers: a list of '/'-separated paths becomes a nested
    directory tree of labelled nodes, and a selection of nodes expands to the unique
    list of files under them. */
module FileTree {
  import opened Wrappers
  import opened Strings
  import opened Seqs

  // ---------------------------------------------------------------------------
  // The nested dict of `_build_tree`.

  /** A value of the nested dict: `None` for a file, a dict for a directory. */
  datatype Entry = File | Folder(entries: map<string, Entry>)

  /** The entry reached by following `path` from the directory `m`. */
  function At(m: map<string, Entry>, path: seq<string>): (r: Option<Entry>)
    decreases |path|
  {
    if path == [] then Some(Folder(m))
    else if path[0] !in m then None
    else if path == [path[0]] then Some(m[path[0]])
    else match m[path[0]]
      case File => None
      case Folder(sub) => At(sub, path[1..])
  }

  /** The cursor walk for one path, from part `idx` on: a missing part is created
      (a directory for every part but the last, a file for the last), and the cursor
      moves into the part only when it is a directory. When it is a file, the cursor
      stays where it is and the remaining parts land beside that file. */
  function Insert(m: map<string, Entry>, parts: seq<string>, idx: nat): (r: map<string, Entry>)
    requires idx <= |parts|
    ensures m.Keys <= r.Keys
    decreases |parts| - idx
  {
    if idx == |parts| then m
    else
      var part := parts[idx];
      var m1 := if part in m then m else m[part := if idx < |parts| - 1 then Folder(map[]) else File];
      match m1[part]
        case File => Insert(m1, parts, idx + 1)
        case Folder(sub) => m1[part := Folder(Insert(sub, parts, idx + 1))]
  }

  /** `m2` keeps every entry of `m1`: a file stays a file and a directory stays a
      directory that keeps every entry it had. */
  ghost predicate Extends(m1: map<string, Entry>, m2: map<string, Entry>) {
    forall path :: At(m1, path).Some? ==>
      At(m2, path).Some? && (At(m1, path).value.File? <==> At(m2, path).value.File?)
  }

  lemma {:induction false} ExtendsStep(m: map<string, Entry>, k: string, sub: map<string, Entry>)
    requires k in m && m[k].Folder? && Extends(m[k].entries, sub)
    ensures Extends(m, m[k := Folder(sub)])
  {
    var m2 := m[k := Folder(sub)];
    forall path | At(m, path).Some?
      ensures At(m2, path).Some? && (At(m, path).value.File? <==> At(m2, path).value.File?)
    {
      if path != [] && path[0] == k && path != [k] {
        assert At(m, path) == At(m[k].entries, path[1..]);
        assert At(m2, path) == At(sub, path[1..]);
      }
    }
  }

  lemma {:induction false} ExtendsAdd(m: map<string, Entry>, k: string, e: Entry)
    requires k !in m
    ensures Extends(m, m[k := e])
  {
    var m2 := m[k := e];
    forall path | At(m, path).Some?
      ensures At(m2, path).Some? && (At(m, path).value.File? <==> At(m2, path).value.File?)
    {
      if path != [] {
        assert path[0] != k;
        if path != [path[0]] {
          assert m2[path[0]] == m[path[0]];
        }
      }
    }
  }

  lemma ExtendsTransitive(m1: map<string, Entry>, m2: map<string, Entry>, m3: map<string, Entry>)
    requires Extends(m1, m2) && Extends(m2, m3)
    ensures Extends(m1, m3)
  {
  }

  lemma ExtendsRefl(m: map<string, Entry>)
    ensures Extends(m, m)
  {
  }

  /** Inserting a path never removes an entry or changes its kind: in particular
      every file already in the tree stays a file. */
  lemma {:induction false} InsertExtends(m: map<string, Entry>, parts: seq<string>, idx: nat)
    requires idx <= |parts|
    ensures Extends(m, Insert(m, parts, idx))
    decreases |parts| - idx
  {
    if idx < |parts| {
      var part := parts[idx];
      var m1 := if part in m then m else m[part := if idx < |parts| - 1 then Folder(map[]) else File];
      if part in m {
        ExtendsRefl(m);
      } else {
        ExtendsAdd(m, part, m1[part]);
      }
      match m1[part]
      case File =>
        InsertExtends(m1, parts, idx + 1);
        ExtendsTransitive(m, m1, Insert(m1, parts, idx + 1));
      case Folder(sub) =>
        InsertExtends(sub, parts, idx + 1);
        ExtendsStep(m1, part, Insert(sub, parts, idx + 1));
        ExtendsTransitive(m, m1, m1[part := Folder(Insert(sub, parts, idx + 1))]);
    }
  }

  /** No proper prefix of `parts[idx..]` names a file in `m`. */
  predicate NoFileOnTheWay(m: map<string, Entry>, parts: seq<string>, idx: nat)
    requires idx <= |parts|
  {
    forall j :: idx < j < |parts| ==> At(m, parts[idx..j]) != Some(File)
  }

  /** When no file sits on the way, the walk follows the path exactly: the path ends
      in an entry, a directory for every proper prefix, and a file at the end unless
      the whole path was already a directory. */
  lemma {:induction false} InsertFollowsPath(m: map<string, Entry>, parts: seq<string>, idx: nat)
    requires idx < |parts| && NoFileOnTheWay(m, parts, idx)
    ensures var r := Insert(m, parts, idx);
      && At(r, parts[idx..]).Some?
      && (At(m, parts[idx..]).None? ==> At(r, parts[idx..]) == Some(File))
      && (forall j :: idx < j < |parts| ==> At(r, parts[idx..j]).Some? && At(r, parts[idx..j]).value.Folder?)
    decreases |parts| - idx
  {
    var part := parts[idx];
    var m1 := if part in m then m else m[part := if idx < |parts| - 1 then Folder(map[]) else File];
    var r := Insert(m, parts, idx);
    assert parts[idx..idx + 1] == [part];
    if idx == |parts| - 1 {
      assert parts[idx..] == [part];
      match m1[part]
      case File =>
        assert Insert(m1, parts, idx + 1) == m1;
      case Folder(sub) =>
        assert At(r, [part]) == Some(r[part]);
    } else {
      assert At(m, [part]) != Some(File);
      assert m1[part].Folder?;
      var sub := m1[part].entries;
      var rs := Insert(sub, parts, idx + 1);
      assert r == m1[part := Folder(rs)];
      var next := idx + 1;
      assert NoFileOnTheWay(sub, parts, next) by {
        forall j | next < j < |parts|
          ensures At(sub, parts[next..j]) != Some(File)
        {
          assert parts[idx..j][1..] == parts[next..j];
          if part in m {
            assert At(m, parts[idx..j]) == At(sub, parts[next..j]);
          } else {
            assert sub == map[];
          }
        }
      }
      InsertFollowsPath(sub, parts, idx + 1);
      assert parts[idx..][1..] == parts[idx + 1..];
      assert At(r, parts[idx..]) == At(rs, parts[idx + 1..]);
      if At(m, parts[idx..]).None? {
        if part in m {
          assert At(m, parts[idx..]) == At(sub, parts[idx + 1..]);
        } else {
          assert sub == map[];
          assert At(sub, parts[idx + 1..]).None?;
        }
      }
      forall j | idx < j < |parts|
        ensures At(r, parts[idx..j]).Some? && At(r, parts[idx..j]).value.Folder?
      {
        if j == idx + 1 {
          assert At(r, parts[idx..j]) == Some(Folder(rs));
        } else {
          assert parts[idx..j][1..] == parts[idx + 1..j];
          assert At(r, parts[idx..j]) == At(rs, parts[idx + 1..j]);
        }
      }
    }
  }

  /** The outer loop of `_build_tree`: every path, split at '/', walked in from the
      root dict. */
  method BuildDict(paths: seq<string>) returns (root: map<string, Entry>)
    ensures root == InsertAll(map[], paths)
  {
    root := map[];
    for i := 0 to |paths|
      invariant root == InsertAll(map[], paths[..i])
    {
      var parts := Split(paths[i], '/');
      root := Insert(root, parts, 0);
      assert paths[..i + 1][..i] == paths[..i];
    }
    assert paths[..|paths|] == paths;
  }

  /** The dict after inserting the paths one after the other. */
  function InsertAll(m: map<string, Entry>, paths: seq<string>): map<string, Entry>
    decreases |paths|
  {
    if paths == [] then m
    else Insert(InsertAll(m, paths[..|paths| - 1]), Split(paths[|paths| - 1], '/'), 0)
  }

  /** Each later path only adds to the tree the earlier ones built. */
  lemma {:induction false} InsertAllExtends(m: map<string, Entry>, paths: seq<string>)
    ensures Extends(m, InsertAll(m, paths))
    decreases |paths|
  {
    if paths == [] {
      ExtendsRefl(m);
    } else {
      var prev := InsertAll(m, paths[..|paths| - 1]);
      InsertAllExtends(m, paths[..|paths| - 1]);
      InsertExtends(prev, Split(paths[|paths| - 1], '/'), 0);
      ExtendsTransitive(m, prev, InsertAll(m, paths));
    }
  }

  lemma {:induction false} InsertAllAppend(m: map<string, Entry>, a: seq<string>, b: seq<string>)
    ensures InsertAll(m, a + b) == InsertAll(InsertAll(m, a), b)
    decreases |b|
  {
    if b == [] {
      assert a + b == a;
    } else {
      assert (a + b)[..|a + b| - 1] == a + b[..|b| - 1];
      InsertAllAppend(m, a, b[..|b| - 1]);
    }
  }

  /** A path that is new when its turn comes, with no file on its way, ends as a
      file of the finished tree, and each of its proper prefixes as a directory. */
  lemma PathBecomesFile(paths: seq<string>, k: nat)
    requires k < |paths|
    requires NoFileOnTheWay(InsertAll(map[], paths[..k]), Split(paths[k], '/'), 0)
    requires At(InsertAll(map[], paths[..k]), Split(paths[k], '/')).None?
    ensures var root := InsertAll(map[], paths);
      var parts := Split(paths[k], '/');
      && At(root, parts) == Some(File)
      && (forall j :: 0 < j < |parts| ==> At(root, parts[..j]).Some? && At(root, parts[..j]).value.Folder?)
  {
    var before := InsertAll(map[], paths[..k]);
    var parts := Split(paths[k], '/');
    assert paths[..k + 1][..k] == paths[..k];
    var after := InsertAll(map[], paths[..k + 1]);
    assert after == Insert(before, parts, 0);
    InsertFollowsPath(before, parts, 0);
    assert parts[0..] == parts;
    assert forall j :: 0 < j < |parts| ==> parts[0..j] == parts[..j];
    assert paths == paths[..k + 1] + paths[k + 1..];
    InsertAllAppend(map[], paths[..k + 1], paths[k + 1..]);
    InsertAllExtends(after, paths[k + 1..]);
  }

  // ---------------------------------------------------------------------------
  // The nodes of `streamlit_tree_select`.

  /** `{"label": ..., "value": ...}` for a file and `{"label": ..., "value": ..., "children": [...]}`
      for a directory; `text` holds the label. */
  datatype TreeNode =
    | Leaf(text: string, value: string)
    | Dir(text: string, value: string, children: seq<TreeNode>)

  /** `to_nodes(d, name)`: a file becomes a leaf labelled with its name; a directory
      becomes a node labelled with its name, or "results" when the name is empty,
      whose children are its entries in order of their names. */
  function ToNodes(e: Entry, name: string): (n: TreeNode)
    ensures e.File? <==> n.Leaf?
    ensures e.File? ==> n.text == name && n.value == name
    ensures e.Folder? ==> n.text == n.value == (if name == "" then "results" else name)
    ensures e.Folder? ==> |n.children| == |e.entries|
    decreases e
  {
    match e
    case File => Leaf(name, name)
    case Folder(m) =>
      var keys := SortedOf(m.Keys);
      var text := if name == "" then "results" else name;
      Dir(text, text, seq(|keys|, i requires 0 <= i < |keys| => ToNodes(m[keys[i]], keys[i])))
  }

  /** `_build_tree(paths)`. */
  method BuildTree(paths: seq<string>) returns (tree: seq<TreeNode>)
    ensures tree == [ToNodes(Folder(InsertAll(map[], paths)), "")]
  {
    var root := BuildDict(paths);
    tree := [ToNodes(Folder(root), "")];
  }

  /** The tree is one root node labelled "results", whatever the paths. */
  lemma TreeRoot(paths: seq<string>)
    ensures var n := ToNodes(Folder(InsertAll(map[], paths)), "");
      n.text == "results" && n.value == "results" && n.Dir?
  {
  }

  /** No directory at any depth has an entry with an empty name. */
  ghost predicate NoEmptyNames(e: Entry)
    decreases e
  {
    e.Folder? ==> forall k :: k in e.entries ==> k != "" && NoEmptyNames(e.entries[k])
  }

  lemma {:induction false} InsertNoEmpty(m: map<string, Entry>, parts: seq<string>, idx: nat)
    requires idx <= |parts| && NoEmptyNames(Folder(m))
    requires forall j :: idx <= j < |parts| ==> parts[j] != ""
    ensures NoEmptyNames(Folder(Insert(m, parts, idx)))
    decreases |parts| - idx
  {
    if idx < |parts| {
      var part := parts[idx];
      var m1 := if part in m then m else m[part := if idx < |parts| - 1 then Folder(map[]) else File];
      assert NoEmptyNames(Folder(m1));
      match m1[part]
      case File =>
        InsertNoEmpty(m1, parts, idx + 1);
      case Folder(sub) =>
        InsertNoEmpty(sub, parts, idx + 1);
        var r := m1[part := Folder(Insert(sub, parts, idx + 1))];
        assert forall k :: k in r ==> k != "" && NoEmptyNames(r[k]);
    }
  }

  /** Paths without empty segments (no leading, trailing or doubled '/') build a
      tree without empty names. */
  lemma {:induction false} InsertAllNoEmpty(paths: seq<string>)
    requires forall p :: p in paths ==> "" !in Split(p, '/')
    ensures NoEmptyNames(Folder(InsertAll(map[], paths)))
    decreases |paths|
  {
    if paths != [] {
      var p := paths[|paths| - 1];
      InsertAllNoEmpty(paths[..|paths| - 1]);
      var parts := Split(p, '/');
      assert forall j :: 0 <= j < |parts| ==> parts[j] != "" by {
        assert p in paths;
      }
      InsertNoEmpty(InsertAll(map[], paths[..|paths| - 1]), parts, 0);
    }
  }

  /** Every directory node lists its children in strictly increasing label order,
      all the way down. */
  predicate SortedTree(n: TreeNode)
    decreases n
  {
    n.Dir? ==>
      && (forall i, j :: 0 <= i < j < |n.children| ==>
            StrLt(n.children[i].text, n.children[j].text))
      && (forall i :: 0 <= i < |n.children| ==> SortedTree(n.children[i]))
  }

  /** Children come in the order of their names, and a directory's label is its
      name unless the name is empty; so without empty names the labels are sorted. */
  lemma {:induction false} ToNodesSorted(e: Entry, name: string)
    requires NoEmptyNames(e)
    ensures SortedTree(ToNodes(e, name))
    decreases e
  {
    match e
    case File =>
    case Folder(m) =>
      var keys := SortedOf(m.Keys);
      var n := ToNodes(e, name);
      var cs := n.children;
      forall i | 0 <= i < |cs|
        ensures cs[i].text == keys[i] && SortedTree(cs[i])
      {
        assert keys[i] in m;
        ToNodesSorted(m[keys[i]], keys[i]);
      }
      forall i, j | 0 <= i < j < |cs|
        ensures StrLt(cs[i].text, cs[j].text)
      {
        assert cs[i].text == keys[i] && cs[j].text == keys[j];
      }
  }

  /** The tree `_build_tree` returns for paths without empty segments is sorted at
      every level. */
  lemma TreeSorted(paths: seq<string>)
    requires forall p :: p in paths ==> "" !in Split(p, '/')
    ensures SortedTree(ToNodes(Folder(InsertAll(map[], paths)), ""))
  {
    InsertAllNoEmpty(paths);
    ToNodesSorted(Folder(InsertAll(map[], paths)), "");
  }

  // ---------------------------------------------------------------------------
  // Collecting file keys.

  /** `_collect_all_file_keys(node)`: the leaf values under a node, left to right; a
      node whose `children` is missing or empty counts as a leaf. */
  function FileKeys(n: TreeNode): seq<string>
    decreases n, 1
  {
    if n.Dir? && |n.children| > 0 then FileKeysAll(n.children)
    else [n.value]
  }

  /** The file keys of a list of nodes, in list order. */
  function FileKeysAll(ns: seq<TreeNode>): seq<string>
    decreases ns, 0
  {
    if ns == [] then [] else FileKeysAll(ns[..|ns| - 1]) + FileKeys(ns[|ns| - 1])
  }

  lemma {:induction false} FileKeysAllAppend(a: seq<TreeNode>, b: seq<TreeNode>)
    ensures FileKeysAll(a + b) == FileKeysAll(a) + FileKeysAll(b)
    decreases |b|
  {
    if b == [] {
      assert a + b == a;
    } else {
      assert (a + b)[..|a + b| - 1] == a + b[..|b| - 1];
      FileKeysAllAppend(a, b[..|b| - 1]);
    }
  }

  /** Every node has at least one file key. */
  lemma {:induction false} FileKeysNonEmpty(n: TreeNode)
    ensures |FileKeys(n)| >= 1
    decreases n
  {
    if n.Dir? && |n.children| > 0 {
      var cs := n.children;
      FileKeysAllAppend(cs[..|cs| - 1], [cs[|cs| - 1]]);
      FileKeysNonEmpty(cs[|cs| - 1]);
      assert FileKeysAll([cs[|cs| - 1]]) == FileKeys(cs[|cs| - 1]) by {
        assert [cs[|cs| - 1]][..0] == [];
      }
    }
  }

  /** The recursive `_collect_all_file_keys` with its `files.extend` loop. */
  method CollectAllFileKeys(n: TreeNode) returns (files: seq<string>)
    ensures files == FileKeys(n)
    decreases n
  {
    if n.Dir? && |n.children| > 0 {
      var cs := n.children;
      files := [];
      for i := 0 to |cs|
        invariant files == FileKeysAll(cs[..i])
      {
        var fs := CollectAllFileKeys(cs[i]);
        assert cs[..i + 1][..i] == cs[..i];
        files := files + fs;
      }
      assert cs[..|cs|] == cs;
    } else {
      files := [n.value];
    }
  }

  /** What `_traverse(nodes)` appends: a checked node gives all its file keys and is
      not searched further; an unchecked node with a `children` key is searched. */
  function Selected(nodes: seq<TreeNode>, checked: seq<string>): seq<string>
    decreases nodes, 0
  {
    if nodes == [] then []
    else Selected(nodes[..|nodes| - 1], checked) + SelectedOne(nodes[|nodes| - 1], checked)
  }

  function SelectedOne(n: TreeNode, checked: seq<string>): seq<string>
    decreases n, 1
  {
    if n.value in checked then FileKeys(n)
    else if n.Dir? then Selected(n.children, checked)
    else []
  }

  /** `_traverse(nodes)`, appending to the list it closes over. */
  method Traverse(nodes: seq<TreeNode>, checked: seq<string>, acc: seq<string>) returns (out: seq<string>)
    ensures out == acc + Selected(nodes, checked)
    decreases nodes
  {
    out := acc;
    for i := 0 to |nodes|
      invariant out == acc + Selected(nodes[..i], checked)
    {
      var n := nodes[i];
      assert nodes[..i + 1][..i] == nodes[..i];
      assert n == nodes[..i + 1][i];
      if n.value in checked {
        var fs := CollectAllFileKeys(n);
        out := out + fs;
      } else if n.Dir? {
        out := Traverse(n.children, checked, out);
      }
    }
    assert nodes[..|nodes|] == nodes;
  }

  /** `[f for f in s if not (f in seen or seen.add(f))]`: the first occurrence of
      every element, in order. */
  method DedupInOrder(s: seq<string>) returns (uniq: seq<string>)
    ensures uniq == Dedup(s)
  {
    var seen: set<string> := {};
    uniq := [];
    for i := 0 to |s|
      invariant uniq == Dedup(s[..i])
      invariant forall x :: x in seen <==> x in s[..i]
    {
      var f := s[i];
      ghost var prefix := s[..i];
      assert s[..i + 1] == prefix + [f];
      DedupSnoc(prefix, f);
      if f !in seen {
        assert f !in prefix;
        seen := seen + {f};
        uniq := uniq + [f];
      } else {
        assert f in prefix;
      }
    }
    assert s[..|s|] == s;
  }

  /** `_collect_selected_files(tree, checked)`: the selected files, each once, in
      order of first selection. */
  method CollectSelectedFiles(tree: seq<TreeNode>, checked: seq<string>) returns (files: seq<string>)
    ensures files == Dedup(Selected(tree, checked))
  {
    var selectedFiles := Traverse(tree, checked, []);
    assert selectedFiles == Selected(tree, checked);
    files := DedupInOrder(selectedFiles);
  }

  /** What one node of the searched list contributes ends up in the selection. */
  lemma {:induction false} SelectedOneIn(nodes: seq<TreeNode>, checked: seq<string>, k: nat)
    requires k < |nodes|
    ensures forall f :: f in SelectedOne(nodes[k], checked) ==> f in Selected(nodes, checked)
    decreases |nodes|
  {
    if k < |nodes| - 1 {
      SelectedOneIn(nodes[..|nodes| - 1], checked, k);
    }
  }

  /** Every file key of a checked node of the searched list is selected. */
  lemma CheckedNodeSelected(nodes: seq<TreeNode>, checked: seq<string>, k: nat)
    requires k < |nodes| && nodes[k].value in checked
    ensures forall f :: f in FileKeys(nodes[k]) ==> f in Selected(nodes, checked)
  {
    SelectedOneIn(nodes, checked, k);
  }

  /** `m` is a node of the list, or is reached from one through directories that are
      not checked: the nodes `_traverse` visits. */
  ghost predicate ReachedThrough(nodes: seq<TreeNode>, checked: seq<string>, m: TreeNode)
    decreases nodes
  {
    exists k :: 0 <= k < |nodes| &&
      (nodes[k] == m ||
       (nodes[k].value !in checked && nodes[k].Dir? && ReachedThrough(nodes[k].children, checked, m)))
  }

  /** Every file key of a checked node is selected, however deep below unchecked
      directories the node sits. */
  lemma {:induction false} ReachedCheckedSelected(nodes: seq<TreeNode>, checked: seq<string>, m: TreeNode)
    requires ReachedThrough(nodes, checked, m) && m.value in checked
    ensures forall f :: f in FileKeys(m) ==> f in Selected(nodes, checked)
    decreases nodes
  {
    var k :| 0 <= k < |nodes| &&
      (nodes[k] == m ||
       (nodes[k].value !in checked && nodes[k].Dir? && ReachedThrough(nodes[k].children, checked, m)));
    SelectedOneIn(nodes, checked, k);
    if nodes[k] != m {
      ReachedCheckedSelected(nodes[k].children, checked, m);
    }
  }

  /** Conversely, every selected file lies under a checked node that `_traverse`
      reaches: nothing outside the checked nodes is selected. */
  lemma {:induction false} SelectedFromChecked(nodes: seq<TreeNode>, checked: seq<string>, f: string)
    requires f in Selected(nodes, checked)
    ensures exists m :: ReachedThrough(nodes, checked, m) && m.value in checked && f in FileKeys(m)
    decreases nodes
  {
    var init := nodes[..|nodes| - 1];
    var k := |nodes| - 1;
    var n := nodes[k];
    if f in Selected(init, checked) {
      SelectedFromChecked(init, checked, f);
      var m :| ReachedThrough(init, checked, m) && m.value in checked && f in FileKeys(m);
      var j :| 0 <= j < |init| &&
        (init[j] == m ||
         (init[j].value !in checked && init[j].Dir? && ReachedThrough(init[j].children, checked, m)));
      assert nodes[j] == init[j];
      assert ReachedThrough(nodes, checked, m);
    } else if n.value in checked {
      assert ReachedThrough(nodes, checked, n);
    } else {
      assert n.Dir? && f in Selected(n.children, checked);
      SelectedFromChecked(n.children, checked, f);
      var m :| ReachedThrough(n.children, checked, m) && m.value in checked && f in FileKeys(m);
      assert ReachedThrough(nodes, checked, m);
    }
  }

  /** The selection never invents a file: everything selected is a file key of the
      nodes searched. */
  lemma {:induction false} SelectedAreFileKeys(nodes: seq<TreeNode>, checked: seq<string>)
    ensures forall f :: f in Selected(nodes, checked) ==> f in FileKeysAll(nodes)
    decreases nodes, 0
  {
    if nodes != [] {
      var n := nodes[|nodes| - 1];
      SelectedAreFileKeys(nodes[..|nodes| - 1], checked);
      SelectedOneAreFileKeys(n, checked);
    }
  }

  lemma {:induction false} SelectedOneAreFileKeys(n: TreeNode, checked: seq<string>)
    ensures forall f :: f in SelectedOne(n, checked) ==> f in FileKeys(n)
    decreases n, 1
  {
    if n.value !in checked && n.Dir? {
      SelectedAreFileKeys(n.children, checked);
      if |n.children| == 0 {
        assert Selected(n.children, checked) == [];
      }
    }
  }
}
