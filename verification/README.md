# FireFlow code editor — a Dafny model

FireFlow is a visual programming system for a Minecraft server. Players build programs
out of node widgets placed in a code editor and connect node outputs to node inputs with
wires. This project models three parts of its editor core:

- **CodeEditor**. This covers:
  - the arena of widgets;
  - the function and struct definition tables;
  - the per-player editor actions;
  - the save/load codec of the `code.bin` file, including the deferred wiring pass;
  - the structural edits that redefine or remove a function or a struct.
- **NodeCategory**. The node catalogue. Each category keeps its entries sorted by name and
  joins its parent's sorted subcategories. A category registered as the extraction
  category of a value type is recorded in the `EXTRACTIONS` registry. Extraction
  categories for list and struct types are built on demand.
- **NodeInputWidget**. The input port of a node widget. This covers:
  - its wires and the back-references each source output keeps;
  - wire selection;
  - disconnecting and removing the port;
  - the chat and left-click edits on a function's boundary node (renaming or deleting a
    function output).

Layout:

- `wrappers.dfy`: Option and Result.
- `seqs.dfy`: the `java.util.List` operations the editor relies on, which are
  `remove(Object)` and `indexOf`.
- `graph.dfy`: value types, definitions, nodes and widgets.
- `codec.dfy`: the token stream, the primitive reads, and the struct and function tables
  with their round trips.
- `node_codec.dfy`: the node table, the deferred wiring, the placeholder purge and the
  whole file.
- `node_codec_lemmas.dfy`: the properties of the node codec.
- `persistence.dfy`: the write and read loops `save` and `load` run, each proved equal to
  the codec function that specifies it.
- `editor.dfy`: the `CodeEditor` class.
- `sorting.dfy`: `List.sort(Comparator.comparing(...))` on string keys.
- `category.dfy`: `NodeCategory`.
- `input_widget.dfy`: `NodeInputWidget`, together with the output and wire widgets it
  touches.

Modelling choices:

- Widgets have identities. Every widget carries an `id`, which stands for Java object
  identity. `CodeEditor.Valid()` keeps identities distinct and below `nextId`, the
  counter that new widgets draw from.
- Wires name their source widget by identity.
- An input's wires appear in two separate views that the model does not link. The
  editor and the codec use the value lists in `Widget.inputs`. `NodeInputWidget` works
  on `WireWidget` objects (`InputWidgets.InputWidget.wires`), and its `parentNode` is a
  node value, not a widget of the editor's arena.
- A successful load gives each node widget its slot index in the node table as its
  identity, and sets `nextId` to the number of slots.
- An arena whose identities equal the positions is called canonical. Saving and loading
  turns any saveable arena into its canonical form (`NodeCodecLemmas.Renumber`): the
  same widgets, numbered by position, with each wire naming its source by position.
- The file is a sequence of tokens, one per `NetworkBuffer.write` call. A token of the
  wrong kind, or the end of the stream, is a `Malformed` error.
- `new ArrayList<>(n)` with a negative count is a `NegativeCapacity` error.
- An index that `List.get` would reject during wiring is a `BadIndex` error.
- A struct's field count is written through a `(byte)` cast (`Codec.ToByte`). A struct
  with 128 to 255 fields is therefore saved with a negative count, and loading it fails.

Choices the code makes, which the model keeps:

- **Records whose node cannot be resolved.** A placeholder that keeps the rest of the
  graph would be the natural treatment. The code instead `continue`s right after the
  kind byte, without reading the record's payload, position or wires.
  - In the model, where each write is one token (see "## Left out"), a record that is
    not the last one then makes the next read start at the wrong token and the load
    fails (`NodeCodecLemmas.UnresolvedRecordMisaligns`). With the real byte layout the
    skipped bytes would instead be reinterpreted as the next record.
  - Only an unresolved last record is dropped cleanly
    (`NodeCodecLemmas.UnresolvedLastRecordDropped`).
- **Load errors.** A failed load does not leave the prior graph untouched. The code
  removes every widget before it reads the file, and clears each definition table
  before refilling it.
- **Structs.** `redefineStruct` and `removeStruct` act only on the first widget bound to
  the struct, not on all of them.
- **`NodeInputWidget` calls.** It calls `editor.inUse` and `editor.redefine`, which
  `CodeEditor` names `funcInUse` and `redefineFunc`. The model calls
  `FuncInUse` and `RedefineFunc`.

## Model

| member | source | states |
|---|---|---|
| Seqs.RemoveFirst | src/main/java/de/blazemcworld/fireflow/editor/CodeEditor.java:407 | `List.remove(Object)`: without the element the list is unchanged; with it the list is one shorter |
| Seqs.RemoveFirstMultiset | src/main/java/de/blazemcworld/fireflow/editor/CodeEditor.java:407 | removing an element takes exactly one copy of it out of the list's contents |
| Seqs.IndexOf | src/main/java/de/blazemcworld/fireflow/editor/widget/NodeInputWidget.java:77 | `indexOf` is -1 exactly when the element is absent; otherwise it is the first position holding it |
| Seqs.RemoveFirstIndexOf | src/main/java/de/blazemcworld/fireflow/editor/widget/NodeInputWidget.java:108 | `remove(Object)` drops exactly the element at `indexOf`, the rest staying in order |
| Seqs.RemoveNCount | src/main/java/de/blazemcworld/fireflow/editor/widget/NodeInputWidget.java:117-121 | k removals of the same element lower its count by k, down to zero |
| Seqs.RemoveNAll | src/main/java/de/blazemcworld/fireflow/editor/widget/NodeInputWidget.java:117-121 | removing an element at least as many times as it occurs leaves none behind |
| Graph.NodeWidgets | src/main/java/de/blazemcworld/fireflow/editor/CodeEditor.java:214-217 | the collected list holds only node widgets of the arena, and every node widget of the arena |
| Graph.FirstNamed | src/main/java/de/blazemcworld/fireflow/editor/CodeEditor.java:323-333 | the first element carrying the name (every earlier one has another name); none exactly when no element has it; the same lookup resolves struct references at line 296 |
| Codec.ReadInt | src/main/java/de/blazemcworld/fireflow/editor/CodeEditor.java:272 | an INT read succeeds exactly on an INT token and consumes just that token |
| Codec.ReadByte | src/main/java/de/blazemcworld/fireflow/editor/CodeEditor.java:280 | a BYTE read succeeds exactly on a BYTE token and consumes just that token |
| Codec.ReadStr | src/main/java/de/blazemcworld/fireflow/editor/CodeEditor.java:279 | a STRING read succeeds exactly on a STRING token and consumes just that token |
| Codec.ReadDouble | src/main/java/de/blazemcworld/fireflow/editor/CodeEditor.java:342-343 | a DOUBLE read succeeds exactly on a DOUBLE token and consumes just that token |
| Codec.ReadData | src/main/java/de/blazemcworld/fireflow/editor/CodeEditor.java:341 | a node payload read succeeds exactly on a payload token and consumes just that token |
| Codec.ReadValue | src/main/java/de/blazemcworld/fireflow/editor/CodeEditor.java:296 | a value-type read that succeeds consumes exactly one value token |
| Codec.EmptyContextResolves | src/main/java/de/blazemcworld/fireflow/editor/CodeEditor.java:282 | struct field types, read with no structs known, load exactly when they name no struct, and then unchanged |
| Codec.ToByte | src/main/java/de/blazemcworld/fireflow/editor/CodeEditor.java:190 | `(byte) n` lies in -128..127 and agrees with n modulo 256 |
| Codec.SmallCountsSurviveByteCast | src/main/java/de/blazemcworld/fireflow/editor/CodeEditor.java:190 | field counts below 128 survive the byte cast |
| Codec.LargeCountsTurnNegative | src/main/java/de/blazemcworld/fireflow/editor/CodeEditor.java:190 | field counts from 128 to 255 are written as negative bytes |
| Codec.PortsRoundTrip | src/main/java/de/blazemcworld/fireflow/editor/CodeEditor.java:294-298 | reading back written ports whose types resolve gives the same ports and leaves the rest of the stream |
| Codec.StructRoundTrip | src/main/java/de/blazemcworld/fireflow/editor/CodeEditor.java:279-284 | a struct with fewer than 128 fields, none naming a struct, reads back as itself |
| Codec.StructsRoundTrip | src/main/java/de/blazemcworld/fireflow/editor/CodeEditor.java:277-285 | the struct table written by `save` reads back as the same table |
| Codec.FunctionRoundTrip | src/main/java/de/blazemcworld/fireflow/editor/CodeEditor.java:290-308 | a function whose port types resolve against the loaded structs reads back as itself |
| Codec.FunctionsRoundTrip | src/main/java/de/blazemcworld/fireflow/editor/CodeEditor.java:288-309 | the function table written by `save` reads back as the same table |
| NodeCodec.Ids | src/main/java/de/blazemcworld/fireflow/editor/CodeEditor.java:234 | the identity list has one entry per widget, position by position |
| NodeCodecLemmas.NodeKindRoundTrip | src/main/java/de/blazemcworld/fireflow/editor/CodeEditor.java:315-334 | the base name and kind byte `save` writes resolve back to the same kind of node |
| NodeCodecLemmas.OldFilesHaveNoKindByte | src/main/java/de/blazemcworld/fireflow/editor/CodeEditor.java:316-317 | files before version 1 carry no kind byte: nothing is read and the kind is 0 |
| NodeCodecLemmas.UnknownKindIsPlaceholder | src/main/java/de/blazemcworld/fireflow/editor/CodeEditor.java:319-339 | a kind outside 0..3, an unregistered builtin name or an unknown function name gives a placeholder, and only these do |
| NodeCodecLemmas.IndexOfCanonical | src/main/java/de/blazemcworld/fireflow/editor/CodeEditor.java:234 | when identities equal positions, a wire's source is written as its own identity |
| NodeCodecLemmas.RelaysRoundTrip | src/main/java/de/blazemcworld/fireflow/editor/CodeEditor.java:356-360 | relay points read back as written |
| NodeCodecLemmas.WireRoundTrip | src/main/java/de/blazemcworld/fireflow/editor/CodeEditor.java:353-360 | a written wire reads back as the deferred connection of its source, output and relays |
| NodeCodecLemmas.WiresRoundTrip | src/main/java/de/blazemcworld/fireflow/editor/CodeEditor.java:351-375 | an input's wires read back as its deferred connections, in order |
| NodeCodecLemmas.InputsRoundTrip | src/main/java/de/blazemcworld/fireflow/editor/CodeEditor.java:348-376 | a node's input records read back as the deferred connections of all its inputs |
| NodeCodecLemmas.NodeBodyRoundTrip | src/main/java/de/blazemcworld/fireflow/editor/CodeEditor.java:340-376 | a record's payload, position and inputs read back as an unwired widget plus its queued wires |
| NodeCodecLemmas.NodeRecordRoundTrip | src/main/java/de/blazemcworld/fireflow/editor/CodeEditor.java:315-378 | a resolvable node record fills the next slot with the widget stripped of its wires |
| NodeCodecLemmas.NodesRoundTrip | src/main/java/de/blazemcworld/fireflow/editor/CodeEditor.java:313-379 | the written node records read back as their stripped widgets, slot by slot, plus every queued wire |
| NodeCodecLemmas.WiresConnect | src/main/java/de/blazemcworld/fireflow/editor/CodeEditor.java:363-374 | running one input's queued connections appends its wires to that input, in order |
| NodeCodecLemmas.InputsConnect | src/main/java/de/blazemcworld/fireflow/editor/CodeEditor.java:363-374 | running a node's queued connections restores every one of its input wire lists |
| NodeCodecLemmas.NodesConnect | src/main/java/de/blazemcworld/fireflow/editor/CodeEditor.java:381 | the wiring pass over a freshly read table rebuilds every saved wire |
| NodeCodecLemmas.PurgeLive | src/main/java/de/blazemcworld/fireflow/editor/CodeEditor.java:383 | purging a table without placeholders returns its widgets |
| NodeCodecLemmas.NodeTableRoundTrip | src/main/java/de/blazemcworld/fireflow/editor/CodeEditor.java:311-381 | the node table and wiring pass reproduce a canonical arena of resolvable node widgets exactly |
| NodeCodecLemmas.TablesRoundTrip | src/main/java/de/blazemcworld/fireflow/editor/CodeEditor.java:276-309 | both definition tables read back, and the node table is read against them |
| NodeCodecLemmas.RenumberKeeps | src/main/java/de/blazemcworld/fireflow/editor/CodeEditor.java:233-241 | on renumbering each node widget keeps its node, position and wire counts and takes its position as identity; each wire keeps its output and relays and names the first saved widget that carries its source |
| NodeCodecLemmas.RenumberCanonicalIsIdentity | src/main/java/de/blazemcworld/fireflow/editor/CodeEditor.java:234 | an arena whose identities are already the positions is unchanged by renumbering |
| NodeCodecLemmas.RenumberCanonical | src/main/java/de/blazemcworld/fireflow/editor/CodeEditor.java:234-235 | a renumbered saveable arena names only existing slots and outputs, with identities equal to positions |
| NodeCodecLemmas.EncodeNodesRenumbered | src/main/java/de/blazemcworld/fireflow/editor/CodeEditor.java:219-244 | the node table written is the same before and after renumbering: only which saved widget a wire comes from reaches the file |
| NodeCodecLemmas.ArenaRoundTrip | src/main/java/de/blazemcworld/fireflow/editor/CodeEditor.java:254-383 | a file holding saveable tables and a canonical arena loads back as exactly those tables and that arena |
| NodeCodecLemmas.RoundTrip | src/main/java/de/blazemcworld/fireflow/editor/CodeEditor.java:183-383 | loading what `save` wrote gives back the structs, the functions and the renumbered node widgets: the same nodes, payloads, positions and wires in order, each widget identified by its position and each wire naming its source's position |
| NodeCodecLemmas.CanonicalRoundTrip | src/main/java/de/blazemcworld/fireflow/editor/CodeEditor.java:183-383 | an arena whose identities are its positions loads back exactly as it was saved |
| NodeCodecLemmas.ConnectStepKeeps | src/main/java/de/blazemcworld/fireflow/editor/CodeEditor.java:364-373 | one connection only adds a wire to an input of a live node widget; identities and landed wires are kept |
| NodeCodecLemmas.ConnectKeeps | src/main/java/de/blazemcworld/fireflow/editor/CodeEditor.java:381 | the whole wiring pass keeps slots, identities and landed wires |
| NodeCodecLemmas.ReadNodesShape | src/main/java/de/blazemcworld/fireflow/editor/CodeEditor.java:313-379 | reading the node table leaves each live slot a wireless node widget whose identity is its slot index |
| NodeCodecLemmas.PurgeMembers | src/main/java/de/blazemcworld/fireflow/editor/CodeEditor.java:383 | the purge keeps exactly the live slots' widgets |
| NodeCodecLemmas.PurgeLength | src/main/java/de/blazemcworld/fireflow/editor/CodeEditor.java:383 | the purge removes exactly the placeholders |
| NodeCodecLemmas.PurgeIdsIncrease | src/main/java/de/blazemcworld/fireflow/editor/CodeEditor.java:383 | purged widgets keep slot order, so identities strictly increase and stay below the slot count |
| NodeCodecLemmas.LoadedGraphWellFormed | src/main/java/de/blazemcworld/fireflow/editor/CodeEditor.java:311-383 | any loaded node table gives node widgets with increasing identities below the slot count, and every wire comes from a loaded widget that has its output |
| NodeCodecLemmas.DecodeWellFormed | src/main/java/de/blazemcworld/fireflow/editor/CodeEditor.java:254-383 | any file that loads gives node widgets with distinct, increasing identities below the slot count |
| NodeCodecLemmas.UnresolvedRecordMisaligns | src/main/java/de/blazemcworld/fireflow/editor/CodeEditor.java:336-339 | an unresolved record that is not the last one makes the next record be read from its payload, and the load fails |
| NodeCodecLemmas.UnresolvedLastRecordDropped | src/main/java/de/blazemcworld/fireflow/editor/CodeEditor.java:336-339 | an unresolved last record leaves only a placeholder, which the purge removes, and a queued wire from that slot is skipped |
| NodeCodecLemmas.Unskipped | src/main/java/de/blazemcworld/fireflow/editor/CodeEditor.java:364 | keeps exactly the queued wires whose source slot is not a placeholder, in order |
| NodeCodecLemmas.PlaceholderWiresSkipped | src/main/java/de/blazemcworld/fireflow/editor/CodeEditor.java:364-375 | the wiring pass neither fails on nor adds a wire from a placeholder slot: it equals the pass over the other wires, and a queue of such wires alone succeeds and changes nothing |
| NodeCodecLemmas.PlaceholderWireSkipped | src/main/java/de/blazemcworld/fireflow/editor/CodeEditor.java:364 | one queued wire from a placeholder slot leaves the slots as they are |
| Persistence.TokenBuffer.constructor | src/main/java/de/blazemcworld/fireflow/editor/CodeEditor.java:184 | a new buffer is empty |
| Persistence.TokenBuffer.Write | src/main/java/de/blazemcworld/fireflow/editor/CodeEditor.java:185 | a write appends one token |
| Persistence.WritePorts | src/main/java/de/blazemcworld/fireflow/editor/CodeEditor.java:191-194 | the field loop writes exactly the encoding of the ports |
| Persistence.WriteStructs | src/main/java/de/blazemcworld/fireflow/editor/CodeEditor.java:187-195 | the struct loop writes exactly the struct table's encoding |
| Persistence.WriteFunction | src/main/java/de/blazemcworld/fireflow/editor/CodeEditor.java:199-211 | one function record is written as its encoding |
| Persistence.WriteFunctions | src/main/java/de/blazemcworld/fireflow/editor/CodeEditor.java:197-212 | the function loop writes exactly the function table's encoding |
| Persistence.WriteRelays | src/main/java/de/blazemcworld/fireflow/editor/CodeEditor.java:238-241 | the relay loop writes the encoding of the relay points |
| Persistence.WriteWire | src/main/java/de/blazemcworld/fireflow/editor/CodeEditor.java:234-241 | a wire is written as its source's position among the saved nodes, its output and its relays |
| Persistence.WriteWires | src/main/java/de/blazemcworld/fireflow/editor/CodeEditor.java:232-242 | the wire loop writes the encoding of an input's wires |
| Persistence.WriteInputs | src/main/java/de/blazemcworld/fireflow/editor/CodeEditor.java:230-243 | the input loop writes each input's wire count and wires |
| Persistence.WriteNode | src/main/java/de/blazemcworld/fireflow/editor/CodeEditor.java:221-243 | one node record is written as its encoding |
| Persistence.WriteNodes | src/main/java/de/blazemcworld/fireflow/editor/CodeEditor.java:219-244 | the node loop writes the encoding of every saved node widget |
| Persistence.CollectNodes | src/main/java/de/blazemcworld/fireflow/editor/CodeEditor.java:214-217 | the collected list is the arena's node widgets in order |
| Persistence.LoadPorts | src/main/java/de/blazemcworld/fireflow/editor/CodeEditor.java:294-298 | the port loop computes the port-table reader |
| Persistence.LoadStruct | src/main/java/de/blazemcworld/fireflow/editor/CodeEditor.java:279-284 | one struct record is read as the struct reader specifies |
| Persistence.LoadStructs | src/main/java/de/blazemcworld/fireflow/editor/CodeEditor.java:277-285 | the struct loop computes the struct-table reader |
| Persistence.LoadFunction | src/main/java/de/blazemcworld/fireflow/editor/CodeEditor.java:290-308 | one function record is read as the function reader specifies |
| Persistence.LoadFunctions | src/main/java/de/blazemcworld/fireflow/editor/CodeEditor.java:288-309 | the function loop computes the function-table reader |
| Persistence.LoadRelays | src/main/java/de/blazemcworld/fireflow/editor/CodeEditor.java:356-360 | the relay loop computes the relay reader |
| Persistence.LoadWires | src/main/java/de/blazemcworld/fireflow/editor/CodeEditor.java:351-375 | the wire loop queues each wire as the wire reader specifies |
| Persistence.LoadInputs | src/main/java/de/blazemcworld/fireflow/editor/CodeEditor.java:348-376 | the input loop queues every wire of every input |
| Persistence.FindSupplier | src/main/java/de/blazemcworld/fireflow/editor/CodeEditor.java:319-334 | the supplier search resolves a record as the resolution function specifies |
| Persistence.LoadNodes | src/main/java/de/blazemcworld/fireflow/editor/CodeEditor.java:313-379 | the node loop fills the slots and queues the wires as the node-table reader specifies |
| Persistence.LoadNodeBody | src/main/java/de/blazemcworld/fireflow/editor/CodeEditor.java:340-377 | one resolved record's payload, position and queued wires are read as the node-record reader specifies |
| Persistence.LoadNodeTable | src/main/java/de/blazemcworld/fireflow/editor/CodeEditor.java:311-383 | the node count, node loop, wiring pass and purge together compute the node-table decoder |
| Persistence.LoadBody | src/main/java/de/blazemcworld/fireflow/editor/CodeEditor.java:276-383 | the struct table, function table and node table read in turn compute the body decoder |
| Persistence.RunConnections | src/main/java/de/blazemcworld/fireflow/editor/CodeEditor.java:381 | running the queued connections in order is the wiring pass |
| Persistence.PurgeDropsOnePlaceholder | src/main/java/de/blazemcworld/fireflow/editor/CodeEditor.java:383 | removing one placeholder does not change the purged widgets |
| Persistence.PurgeWithoutPlaceholders | src/main/java/de/blazemcworld/fireflow/editor/CodeEditor.java:383 | without placeholders the purge keeps every slot's widget in order |
| Persistence.PurgePlaceholders | src/main/java/de/blazemcworld/fireflow/editor/CodeEditor.java:383 | the removal loop leaves exactly the live widgets, in slot order |
| Editor.Bound | src/main/java/de/blazemcworld/fireflow/editor/CodeEditor.java:411-421 | the collected widgets are exactly the arena's boundary widgets of the function |
| Editor.Unbound | src/main/java/de/blazemcworld/fireflow/editor/CodeEditor.java:446-457 | what remains is exactly the arena's widgets not bound to the function |
| Editor.ReboundReplacesEach | src/main/java/de/blazemcworld/fireflow/editor/CodeEditor.java:414-419 | each old boundary widget gets one fresh replacement of the same side for the new definition, at the same origin |
| Editor.RemovingBoundLeavesUnbound | src/main/java/de/blazemcworld/fireflow/editor/CodeEditor.java:423 | removing the collected widgets one by one leaves exactly the unbound widgets, in order |
| Editor.NoStaleBoundary | src/main/java/de/blazemcworld/fireflow/editor/CodeEditor.java:405-425 | after a redefinition to a different definition, no widget is bound to the old one |
| Editor.RedefinedUnique | src/main/java/de/blazemcworld/fireflow/editor/CodeEditor.java:409-424 | after a redefinition, identities stay distinct and below the advanced counter |
| Editor.FirstBoundToStruct | src/main/java/de/blazemcworld/fireflow/editor/CodeEditor.java:433-441 | none exactly when no widget is bound to the struct; otherwise a position holding such a widget |
| Editor.CollectBoundary | src/main/java/de/blazemcworld/fireflow/editor/CodeEditor.java:409-422 | the scan collects the bound widgets and one replacement per bound widget |
| Editor.AddReplacement | src/main/java/de/blazemcworld/fireflow/editor/CodeEditor.java:414-419 | a widget bound to `prev` adds exactly its replacement, of the same side, numbered after those collected |
| Editor.CollectBound | src/main/java/de/blazemcworld/fireflow/editor/CodeEditor.java:449-455 | the scan collects the widgets bound to the function |
| Editor.FindBoundStruct | src/main/java/de/blazemcworld/fireflow/editor/CodeEditor.java:463-470 | the scan stops at the first widget bound to the struct |
| Editor.DroppingFirstBoundStruct | src/main/java/de/blazemcworld/fireflow/editor/CodeEditor.java:459-471 | dropping the first bound widget clears the struct from the arena only when it was the only one; later ones stay |
| Editor.RemoveKnownWidget | src/main/java/de/blazemcworld/fireflow/editor/CodeEditor.java:170-173 | removing a widget drops it at its position and keeps identities distinct and bounded |
| Editor.AppendFresh | src/main/java/de/blazemcworld/fireflow/editor/CodeEditor.java:443 | adding a widget with the next identity keeps identities distinct |
| Editor.CodeEditor.constructor | src/main/java/de/blazemcworld/fireflow/editor/CodeEditor.java:44-49 | a new editor has an empty arena, empty tables and no actions |
| Editor.CodeEditor.Remove | src/main/java/de/blazemcworld/fireflow/editor/CodeEditor.java:170-173 | `remove` drops the first widget equal to the argument and changes nothing else |
| Editor.CodeEditor.SetAction | src/main/java/de/blazemcworld/fireflow/editor/CodeEditor.java:175-181 | the player's previous action, if any, is stopped; the player's action is then set or cleared |
| Editor.CodeEditor.GetWidget | src/main/java/de/blazemcworld/fireflow/editor/CodeEditor.java:147-153 | null exactly when no widget selects anything; otherwise some widget's selection |
| Editor.CodeEditor.GetNodes | src/main/java/de/blazemcworld/fireflow/editor/CodeEditor.java:386-392 | the nodes of the node widgets, in arena order, each from a widget of the arena |
| Editor.CodeEditor.FuncInUse | src/main/java/de/blazemcworld/fireflow/editor/CodeEditor.java:474-481 | true exactly when some widget holds a call of the function |
| Editor.CodeEditor.StructInUse | src/main/java/de/blazemcworld/fireflow/editor/CodeEditor.java:483-490 | true exactly when some widget holds a construction node of the struct |
| Editor.CodeEditor.RemoveAll | src/main/java/de/blazemcworld/fireflow/editor/CodeEditor.java:423 | removing a list of widgets one by one with `remove` |
| Editor.CodeEditor.RedefineFunc | src/main/java/de/blazemcworld/fireflow/editor/CodeEditor.java:405-425 | an unknown `prev` changes nothing; otherwise `next` replaces it at the end of the table, its boundary widgets leave and fresh ones for `next` are appended |
| Editor.CodeEditor.RemoveFunc | src/main/java/de/blazemcworld/fireflow/editor/CodeEditor.java:446-457 | an unknown function changes nothing; otherwise it leaves the table and all its boundary widgets leave the arena |
| Editor.CodeEditor.RedefineStruct | src/main/java/de/blazemcworld/fireflow/editor/CodeEditor.java:427-444 | an unknown `prev` changes nothing; otherwise `next` replaces it at the end, the first bound widget leaves and, if it was the initializer, a fresh one for `next` is appended |
| Editor.CodeEditor.ReplaceStructNode | src/main/java/de/blazemcworld/fireflow/editor/CodeEditor.java:436-443 | the first bound widget leaves the arena and, if it was the initializer, a fresh one for `next` is appended with the next identity |
| Editor.CodeEditor.RemoveThenAdd | src/main/java/de/blazemcworld/fireflow/editor/CodeEditor.java:442-443 | the widget leaves the arena, then the optional new widget is appended with the next identity; identities stay distinct |
| Editor.CodeEditor.RemoveStruct | src/main/java/de/blazemcworld/fireflow/editor/CodeEditor.java:459-472 | an unknown struct changes nothing; otherwise it leaves the table and the first bound widget leaves the arena |
| Editor.CodeEditor.Save | src/main/java/de/blazemcworld/fireflow/editor/CodeEditor.java:183-244 | the file written is the encoding of the struct table, the function table and the node widgets |
| Editor.CodeEditor.Load | src/main/java/de/blazemcworld/fireflow/editor/CodeEditor.java:254-384 | a missing file leaves an empty arena and the tables as they were; a decodable file replaces the arena and the tables with the decoded ones; a bad file reports the decode error |
| Sorting.StrLeTotal | src/main/java/de/blazemcworld/fireflow/node/NodeCategory.java:91 | the string order compares every pair of names |
| Sorting.SortBySortsAndPermutes | src/main/java/de/blazemcworld/fireflow/node/NodeCategory.java:91 | the sort returns its input ordered by name and as a permutation |
| Sorting.SortByStable | src/main/java/de/blazemcworld/fireflow/node/NodeCategory.java:91 | entries with equal names keep their relative order |
| Sorting.SortByOfSorted | src/main/java/de/blazemcworld/fireflow/node/NodeCategory.java:95 | sorting an already sorted list leaves it as it is |
| Sorting.SortByIdempotent | src/main/java/de/blazemcworld/fireflow/node/NodeCategory.java:95 | sorting twice is sorting once |
| Category.Extractions.constructor | src/main/java/de/blazemcworld/fireflow/node/NodeCategory.java:36 | the extraction registry starts empty |
| Category.NodeCategory.constructor | src/main/java/de/blazemcworld/fireflow/node/NodeCategory.java:73-100 | the entries are the suppliers named by their nodes, sorted and permuted; the parent's subcategories gain this one, re-sorted; the registry maps the extraction type to it |
| Category.GetListExtractions | src/main/java/de/blazemcworld/fireflow/node/NodeCategory.java:52-56 | a fresh, registered category named after the list type, holding only the list-size node |
| Category.GetStructExtractions | src/main/java/de/blazemcworld/fireflow/node/NodeCategory.java:58-66 | a fresh, registered category named after the struct, holding one field-extraction entry per field |
| Category.StructExtractionsOnePerField | src/main/java/de/blazemcworld/fireflow/node/NodeCategory.java:58-66 | the struct category has exactly one entry per field index, sorted by name |
| Category.Get | src/main/java/de/blazemcworld/fireflow/node/NodeCategory.java:46-50 | list and struct types get a fresh, parentless extraction category named after the type (full name for a list, base name for a struct) with its entries, registered for the type; any other type gets its registered category or null |
| InputWidgets.InputWidget.constructor | src/main/java/de/blazemcworld/fireflow/editor/widget/NodeInputWidget.java:25-31 | a new input widget has no wires and no inset |
| InputWidgets.InputWidget.Select | src/main/java/de/blazemcworld/fireflow/editor/widget/NodeInputWidget.java:33-40 | the first wire that selects something answers; when none does, the button itself answers |
| InputWidgets.InputWidget.AddWire | src/main/java/de/blazemcworld/fireflow/editor/widget/NodeInputWidget.java:42-47 | the wire joins the input's wires and the input joins its output's connected inputs, one more of each |
| InputWidgets.InputWidget.Detach | src/main/java/de/blazemcworld/fireflow/editor/widget/NodeInputWidget.java:118-120 | one wire is taken down, the input is dropped once from its output's inputs, and a signal input clears the output's target; nothing else of the other wires changes |
| InputWidgets.DroppedStep | src/main/java/de/blazemcworld/fireflow/editor/widget/NodeInputWidget.java:117-121 | after one more wire, the input has been dropped once more from exactly the entries of the outputs that wire comes from |
| InputWidgets.InputWidget.DetachWire | src/main/java/de/blazemcworld/fireflow/editor/widget/NodeInputWidget.java:117-121 | one pass of the loop extends the loop's state by one wire |
| InputWidgets.InputWidget.DetachAll | src/main/java/de/blazemcworld/fireflow/editor/widget/NodeInputWidget.java:117-121 | every wire is taken down and the input is dropped from each output once per wire from it |
| InputWidgets.InputWidget.Disconnect | src/main/java/de/blazemcworld/fireflow/editor/widget/NodeInputWidget.java:116-124 | wires are taken down and cleared, back-references dropped, signal targets or the inset cleared; no matching output still names the input |
| InputWidgets.InputWidget.Remove | src/main/java/de/blazemcworld/fireflow/editor/widget/NodeInputWidget.java:126-130 | the widget is taken down and then disconnected |
| InputWidgets.RenameOutputChangesOne | src/main/java/de/blazemcworld/fireflow/editor/widget/NodeInputWidget.java:76-80 | renaming changes only the first matching output's name, keeping its type and the other outputs |
| InputWidgets.DeleteOutputDropsFirst | src/main/java/de/blazemcworld/fireflow/editor/widget/NodeInputWidget.java:107-109 | deleting drops exactly the first matching output; without one the definition is unchanged |
| InputWidgets.InputWidget.Chat | src/main/java/de/blazemcworld/fireflow/editor/widget/NodeInputWidget.java:67-97 | on a boundary node of an unused function, the output is renamed by redefinition; a used function is refused; elsewhere the inset is set or the failure reported; the editor changes only as `redefineFunc` changes it (functions, widgets, counter), never its structs or action |
| InputWidgets.InputWidget.LeftClick | src/main/java/de/blazemcworld/fireflow/editor/widget/NodeInputWidget.java:99-114 | on a boundary node of an unused function, the output is deleted by redefinition; a used function is refused; the editor changes only as `redefineFunc` changes it (functions, widgets, counter), never its structs or action |

## Left out

- Editor.CodeEditor.Load: on a decode error only the returned error is stated. The code keeps whatever it had filled in when the read failed: part of a definition table, or part of the arena with null placeholders. The model does not state that state.
- Editor.CodeEditor.GetWidget: a widget's `select(player, cursor)` is a function parameter. The cursor geometry behind it is not modelled.
- Editor.CodeEditor.constructor: the constructor also calls `load` and installs the event listeners. The model's constructor gives the empty editor, and a caller runs `Load` afterwards.
- File I/O (`Files.exists`, `readAllBytes`, `write`, `createDirectories`) and its error logging are not modelled. `Load` takes the file content, with None for a missing or unreadable file, and `Save` returns the content it would write.
- `NetworkBuffer`'s byte layout is not modelled. Each write is one token, so a mismatched or truncated stream is an error rather than a reinterpretation of bytes.
- The value-type codec (`AllValues.writeValue`/`readValue`) and the node payload (`writeData`/`readData`) are not part of this model. Each is one opaque token; struct references in value types resolve by name against the loaded structs.
- `CodeMigration` is not modelled. It is the `migrate` parameter, applied after the version tag; the round trip requires it to leave a current-version file alone. `m.apply` also receives the file's byte length (line 274); `migrate` does not take it, since the model has no byte layout.
- Coordinates and relay points are not modelled as floating point. They are opaque integers that the codec only copies.
- `connectSignal`/`connectValue` on the node ports during the wiring pass are not modelled. A connection is the wire entry in the consumer's wire list.
- Java object identity is not modelled for definitions and ports, which are compared by value. Two structurally equal definitions are indistinguishable in the model. Widgets carry an explicit identity instead.
- NodeCodecLemmas.RoundTrip: arenas holding struct nodes are excluded (`Resolvable` is false for them). `save` writes a struct initializer or construction node with kind 0 under its base name, and `load` looks kind 0 up in the builtin registry, so in the model such a node does not come back as itself.
- `StructDefinition.InitializationNode` is not part of this model. Struct initializer and construction nodes are both taken to be bound to their struct, and only the initializer is replaced on redefinition.
- Removing a node widget does not take down its wires or its ports' widgets. `Widget.remove` of a node widget is not part of this model, and `CodeEditor.Remove` only updates the arena.
- `getCursor` and `getNodesInBound` are left out. They are floating-point geometry on player positions and widget bounds.
- Rendering is not modelled: `update`, text components, the instance, `parent.update(false)` and event cancellation. Player messages are the returned `Reply`.
- `NodeInputWidget.chat` unquotes the message as JSON before `prepareInset`. The prepared inset is the `prepared` parameter.
- `super.select`, `super.leftClick` and `ButtonWidget.remove` are not modelled. `super.select` is the `own` parameter. `super.leftClick` is not modelled, and a non-boundary left click changes nothing in the model. `ButtonWidget.remove` and `WireWidget.remove` set a `removed` flag.
- In `NodeCategory`, node base names and value-type names (`getBaseName`, `getFullName`) are not modelled. They are supplied by the `Naming` parameter.
- Graph.BaseName: the codec fixes a node's `getBaseName` rather than taking it from the node classes, which are not part of this model. It is the registry id for a builtin, and the bound definition's name for a call, boundary or struct node. For call and boundary nodes this is what `load` relies on: it resolves kinds 1 to 3 by comparing the saved name with `fn.fnName` (CodeEditor.java line 324). The round-trip lemmas hold under this assumption.
- The extraction-type warnings the `NodeCategory` constructor logs are left out, since they change no state.
- The static categories (`ROOT`, `VARIABLES`, `PLAYER_EXTRACTIONS`, `TEXT_EXTRACTIONS`) are data, so they are left out. The convenience constructors at lines 102-112 are the main constructor with an absent parent or extraction type.
- `String.compareTo` compares UTF-16 code units, but the model compares Unicode scalar values. The two orders differ only for characters outside the Basic Multilingual Plane.
