/**
  Loading modules, by their names alone (lx_loader.c): which names are listed after a load,
  in which order, or that the load fails.
 */
module ModuleNames {
  import opened Lists
  import opened Options
  import opened ModuleGraph
  import opened ModuleMemory

  // ----- A load as a function ------------------------------------------------------------

  predicate HasName(names: seq<string>, name: string) {
    exists i :: 0 <= i < |names| && SameName(names[i], name)
  }

  // loadModuleByModuleNameInternal: a name that is listed already stays where it is.
  function ByName(host: Host, names: seq<string>, name: string, depth: nat): Option<seq<string>>
    requires depth <= 32
    decreases 32 - depth, 3, 0
  {
    if HasName(names, name) then Some(names) else Missing(host, names, name, depth)
  }

  // A name that is not listed: the file of that name, or a native library instead.
  function Missing(host: Host, names: seq<string>, name: string, depth: nat): Option<seq<string>>
    requires depth <= 32
    decreases 32 - depth, 2, 0
  {
    var loaded := if host.files(name).Some? then ByFile(host, names, host.files(name).value, depth, true) else None;
    if loaded.Some? then loaded else if host.natives(name) then Some([name] + names) else None
  }

  // loadLxModule and loadNeModule: a library, or the program.  Imports are loaded first, one
  // level deeper, and no more than 32 levels deep.
  function ByFile(host: Host, names: seq<string>, image: Image, depth: nat, isDll: bool): Option<seq<string>>
    requires depth <= 32
    decreases 32 - depth, 1, 0
  {
    if image.isDll != isDll || !image.accepted || !image.prepared || depth == 32 then None
    else
      var loaded := AllNames(host, names, image.isLx, image.imports, depth + 1);
      if loaded == None || !image.fixable then None
      else if isDll then Some([image.name] + loaded.value)
      else loaded
  }

  // Imports one after the other, up to the first that cannot be loaded.
  function AllNames(host: Host, names: seq<string>, isLx: bool, imports: seq<string>, depth: nat): Option<seq<string>>
    requires 1 <= depth <= 32
    decreases 32 - depth, 4, |imports|
  {
    if imports == [] then Some(names)
    else if isLx && |imports[0]| > 127 then None
    else
      var loaded := ByName(host, names, imports[0], depth);
      if loaded == None then None else AllNames(host, loaded.value, isLx, imports[1..], depth)
  }

  // ----- The names of a list of modules ------------------------------------------------------

  ghost function NamesOf(heap: Memory, list: seq<Ptr>): seq<string> {
    seq(|list|, i requires 0 <= i < |list| => if list[i] in heap then heap[list[i]].name else "")
  }

  lemma NamesSame(heap: Memory, heap': Memory, list: seq<Ptr>)
    requires forall p :: p in list ==> p in heap && p in heap' && heap'[p].name == heap[p].name
    ensures NamesOf(heap', list) == NamesOf(heap, list)
  {}

  lemma NamesMore(heap: Memory, m: Ptr, list: seq<Ptr>)
    requires m in heap
    ensures NamesOf(heap, [m] + list) == [heap[m].name] + NamesOf(heap, list)
  {}

  lemma {:induction false} LookupNames(heap: Memory, list: seq<Ptr>, name: string)
    requires NULL !in list && forall m :: m in list ==> m in heap
    ensures Lookup(heap, list, name) == NULL <==> !HasName(NamesOf(heap, list), name)
  {
    var names := NamesOf(heap, list);
    if list == [] {
    } else if SameName(heap[list[0]].name, name) {
      assert SameName(names[0], name);
    } else {
      LookupNames(heap, list[1..], name);
      var rest := NamesOf(heap, list[1..]);
      assert forall i :: 0 < i < |names| ==> names[i] == rest[i - 1];
      if HasName(names, name) {
        var i :| 0 <= i < |names| && SameName(names[i], name);
        assert SameName(rest[i - 1], name);
      }
      if HasName(rest, name) {
        var i :| 0 <= i < |rest| && SameName(rest[i], name);
        assert SameName(names[i + 1], name);
      }
    }
  }

  // ----- One step of a load ---------------------------------------------------------------------

  // What a load comes to: the names listed, or nothing if it fails.
  ghost predicate Comes(r: Option<seq<string>>, ok: bool, names: seq<string>) {
    r == if ok then Some(names) else None
  }

  // A name that is listed.
  lemma ListedComes(host: Host, names: seq<string>, name: string, depth: nat)
    requires depth <= 32 && HasName(names, name)
    ensures Comes(ByName(host, names, name, depth), true, names)
  {}

  lemma MissingComes(host: Host, names: seq<string>, name: string, depth: nat, ok: bool, names': seq<string>)
    requires depth <= 32 && !HasName(names, name) && Comes(Missing(host, names, name, depth), ok, names')
    ensures Comes(ByName(host, names, name, depth), ok, names')
  {
    hide Missing;
  }

  // The file is loaded.
  lemma FileComes(host: Host, names: seq<string>, name: string, depth: nat, names': seq<string>)
    requires depth <= 32 && host.files(name).Some?
    requires Comes(ByFile(host, names, host.files(name).value, depth, true), true, names')
    ensures Comes(Missing(host, names, name, depth), true, names')
  {
    hide ByFile;
  }

  // There is no file, or it cannot be loaded.
  lemma NativeComes(host: Host, names: seq<string>, name: string, depth: nat, ok: bool, names': seq<string>)
    requires depth <= 32 && ok == host.natives(name) && (ok ==> names' == [name] + names)
    requires host.files(name).Some? ==> Comes(ByFile(host, names, host.files(name).value, depth, true), false, names)
    ensures Comes(Missing(host, names, name, depth), ok, names')
  {
    hide ByFile;
  }

  // The file is not accepted.
  lemma RefusedComes(host: Host, names: seq<string>, image: Image, depth: nat, isDll: bool, names': seq<string>)
    requires depth <= 32 && (image.isDll != isDll || !image.accepted)
    ensures Comes(ByFile(host, names, image, depth, isDll), false, names')
  {
    hide AllNames;
  }

  // It is accepted, and the imports come to `ok` and `loaded`; `more` says whether they are
  // loaded at all.
  lemma AcceptedComes(host: Host, names: seq<string>, image: Image, depth: nat, ok: bool, loaded: seq<string>)
    requires depth <= 32 && image.accepted
    requires image.prepared && depth < 32 ==>
      Comes(AllNames(host, names, image.isLx, image.imports, depth + 1), ok, loaded)
    ensures !image.prepared || depth == 32 || !ok || !image.fixable ==>
      Comes(ByFile(host, names, image, depth, image.isDll), false, loaded)
    ensures image.prepared && depth < 32 && ok && image.fixable ==>
      Comes(ByFile(host, names, image, depth, image.isDll), true, (if image.isDll then [image.name] else []) + loaded)
  {
    hide AllNames;
    assert [] + loaded == loaded;
  }

  // The imports from the `i`-th on come to what all of them do.
  ghost predicate Onward(host: Host, names0: seq<string>, names: seq<string>, isLx: bool, imports: seq<string>, i: nat,
      depth: nat)
    requires 1 <= depth <= 32
  {
    i <= |imports| &&
    AllNames(host, names, isLx, imports[i..], depth) == AllNames(host, names0, isLx, imports, depth)
  }

  lemma OnwardFirst(host: Host, names: seq<string>, isLx: bool, imports: seq<string>, depth: nat)
    requires 1 <= depth <= 32
    ensures Onward(host, names, names, isLx, imports, 0, depth)
  {
    assert imports[0..] == imports;
  }

  lemma OnwardNext(host: Host, names0: seq<string>, names: seq<string>, isLx: bool, imports: seq<string>, i: nat,
      depth: nat, ok: bool, names': seq<string>)
    requires 1 <= depth <= 32 && Onward(host, names0, names, isLx, imports, i, depth) && i < |imports|
    requires isLx ==> |imports[i]| <= 127
    requires Comes(ByName(host, names, imports[i], depth), ok, names')
    ensures ok ==> Onward(host, names0, names', isLx, imports, i + 1, depth)
    ensures !ok ==> Comes(AllNames(host, names0, isLx, imports, depth), false, names')
  {
    assert imports[i..][1..] == imports[i + 1..] && imports[i..][0] == imports[i];
    hide ByName;
  }

  lemma OnwardLong(host: Host, names0: seq<string>, names: seq<string>, isLx: bool, imports: seq<string>, i: nat,
      depth: nat)
    requires 1 <= depth <= 32 && Onward(host, names0, names, isLx, imports, i, depth) && i < |imports|
    requires isLx && |imports[i]| > 127
    ensures Comes(AllNames(host, names0, isLx, imports, depth), false, names)
  {
    assert imports[i..][0] == imports[i];
    hide ByName;
  }

  lemma OnwardLast(host: Host, names0: seq<string>, names: seq<string>, isLx: bool, imports: seq<string>, depth: nat)
    requires 1 <= depth <= 32 && Onward(host, names0, names, isLx, imports, |imports|, depth)
    ensures Comes(AllNames(host, names0, isLx, imports, depth), true, names)
  {}

  lemma ComesNot(r: Option<seq<string>>, names: seq<string>, names': seq<string>)
    requires Comes(r, false, names)
    ensures Comes(r, false, names')
  {}

  lemma ComesIs(r: Option<seq<string>>, ok: bool, names: seq<string>)
    ensures Comes(r, ok, names) <==> r == if ok then Some(names) else None
  {}
}
