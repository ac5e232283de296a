/**
 * The node catalogue: categories of node suppliers, kept sorted by name, organised as a
 * tree of subcategories, with a registry of the extraction category of each value type.
 */
module Category {

  import opened Wrappers
  import opened Graph
  import opened Sorting

  /** What produces a node of a category. `Listed` stands for a node class given in one of
      the catalogue's own lists; the other two are the suppliers built on demand by `get`. */
  datatype Supplier =
    | Listed(id: string)
    | ListSize(list: ValueType)
    | StructField(st: ValueType, index: nat, field: Port)

  /** An entry of a category: the supplied node's base name and its supplier. */
  datatype Entry = Entry(name: string, supplier: Supplier)

  function EntryName(e: Entry): string { e.name }

  /** The entries of a supplier list, in the list's order. */
  function Entries(ss: seq<Supplier>, nodeName: Supplier -> string): seq<Entry>
  {
    seq(|ss|, i requires 0 <= i < |ss| => Entry(nodeName(ss[i]), ss[i]))
  }

  /** The names a category's construction asks of its values and nodes: `getFullName`
      and `getBaseName` of a value type, and the base name of the node a supplier makes. */
  datatype Naming = Naming(fullName: ValueType -> string, baseName: ValueType -> string, nodeName: Supplier -> string)

  /** One field-extraction supplier per field of a struct type, by field index. */
  function FieldSuppliers(ty: ValueType): (r: seq<Supplier>)
    requires ty.Struct?
  {
    seq(|ty.fields|, i requires 0 <= i < |ty.fields| => StructField(ty, i, ty.fields[i]))
  }

  /** The registry `EXTRACTIONS`: the extraction category of each value type. */
  class Extractions {
    var byType: map<ValueType, NodeCategory>

    constructor ()
      ensures byType == map[]
    {
      byType := map[];
    }
  }

  function CategoryName(c: NodeCategory): string { c.name }

  class NodeCategory {
    const name: string
    const parent: Option<NodeCategory>
    const extractionType: Option<ValueType>
    /** The entries, sorted by name. */
    var nodes: seq<Entry>
    /** The child categories, sorted by name. */
    var subcategories: seq<NodeCategory>

    /** A category holding one entry per supplier, paired with the supplied node's base
        name and sorted by it. A supplier whose node is not an extraction of the category's
        type is kept all the same: the check only logs a warning. The new category joins
        its parent's subcategories, which are sorted again, and becomes the registered
        extraction category of its type. */
    constructor (name: string, parent: Option<NodeCategory>, extractionType: Option<ValueType>,
                 suppliers: seq<Supplier>, nodeName: Supplier -> string, extractions: Extractions)
      modifies (if parent.Some? then {parent.value} else {}), extractions
      ensures this.name == name && this.parent == parent && this.extractionType == extractionType
      ensures nodes == SortBy(Entries(suppliers, nodeName), EntryName)
      ensures SortedBy(nodes, EntryName) && multiset(nodes) == multiset(Entries(suppliers, nodeName))
      ensures subcategories == []
      ensures parent.Some? ==>
                && parent.value.subcategories == SortBy(old(parent.value.subcategories) + [this], CategoryName)
                && parent.value.nodes == old(parent.value.nodes)
      ensures extractionType.Some? ==> extractions.byType == old(extractions.byType)[extractionType.value := this]
      ensures extractionType.None? ==> extractions.byType == old(extractions.byType)
    {
      this.name := name;
      this.parent := parent;
      this.extractionType := extractionType;
      var es: seq<Entry> := [];
      for i := 0 to |suppliers|
        invariant |es| == i && forall k :: 0 <= k < i ==> es[k] == Entry(nodeName(suppliers[k]), suppliers[k])
      {
        es := es + [Entry(nodeName(suppliers[i]), suppliers[i])];
      }
      assert es == Entries(suppliers, nodeName);
      SortBySortsAndPermutes(es, EntryName);
      nodes := SortBy(es, EntryName);
      subcategories := [];
      new;
      if parent.Some? {
        parent.value.subcategories := SortBy(parent.value.subcategories + [this], CategoryName);
      }
      if extractionType.Some? {
        extractions.byType := extractions.byType[extractionType.value := this];
      }
    }
  }

  /** `getListExtractions`: a fresh, registered extraction category for a list type, with
      a single entry, the list-size node. */
  method GetListExtractions(ty: ValueType, naming: Naming, extractions: Extractions) returns (c: NodeCategory)
    requires ty.ListOf?
    modifies extractions
    ensures fresh(c)
    ensures c.name == naming.fullName(ty) + " Extractions" && c.parent.None? && c.extractionType == Some(ty)
    ensures c.nodes == [Entry(naming.nodeName(ListSize(ty)), ListSize(ty))]
    ensures extractions.byType == old(extractions.byType)[ty := c]
  {
    c := new NodeCategory(naming.fullName(ty) + " Extractions", None, Some(ty), [ListSize(ty)], naming.nodeName, extractions);
    assert Entries([ListSize(ty)], naming.nodeName) == [Entry(naming.nodeName(ListSize(ty)), ListSize(ty))];
  }

  /** `getStructExtractions`: a fresh, registered extraction category for a struct type,
      with one field-extraction entry per field. */
  method GetStructExtractions(ty: ValueType, naming: Naming, extractions: Extractions) returns (c: NodeCategory)
    requires ty.Struct?
    modifies extractions
    ensures fresh(c)
    ensures c.name == naming.baseName(ty) + " Extractions" && c.parent.None? && c.extractionType == Some(ty)
    ensures c.nodes == SortBy(Entries(FieldSuppliers(ty), naming.nodeName), EntryName)
    ensures extractions.byType == old(extractions.byType)[ty := c]
  {
    var list: seq<Supplier> := [];
    for i := 0 to |ty.fields|
      invariant |list| == i && forall k :: 0 <= k < i ==> list[k] == StructField(ty, k, ty.fields[k])
    {
      list := list + [StructField(ty, i, ty.fields[i])];
    }
    assert list == FieldSuppliers(ty);
    c := new NodeCategory(naming.baseName(ty) + " Extractions", None, Some(ty), list, naming.nodeName, extractions);
  }

  /** A struct type's extraction category has exactly one entry per field index, each
      named by the node its supplier makes. */
  lemma StructExtractionsOnePerField(ty: ValueType, nodeName: Supplier -> string)
    requires ty.Struct?
    ensures var s := SortBy(Entries(FieldSuppliers(ty), nodeName), EntryName);
            && |s| == |ty.fields|
            && SortedBy(s, EntryName)
            && (forall i :: 0 <= i < |ty.fields| ==>
                  Entry(nodeName(StructField(ty, i, ty.fields[i])), StructField(ty, i, ty.fields[i])) in s)
            && (forall e :: e in s ==>
                  exists i :: 0 <= i < |ty.fields| && e.supplier == StructField(ty, i, ty.fields[i])
                              && e.name == nodeName(e.supplier))
  {
    var es := Entries(FieldSuppliers(ty), nodeName);
    var s := SortBy(es, EntryName);
    SortBySortsAndPermutes(es, EntryName);
    forall i | 0 <= i < |ty.fields|
      ensures Entry(nodeName(StructField(ty, i, ty.fields[i])), StructField(ty, i, ty.fields[i])) in s
    {
      assert es[i] in multiset(es);
    }
    forall e | e in s
      ensures exists i :: 0 <= i < |ty.fields| && e.supplier == StructField(ty, i, ty.fields[i])
                          && e.name == nodeName(e.supplier)
    {
      assert e in multiset(s);
      assert e in es;
      var k :| 0 <= k < |es| && es[k] == e;
      assert e.supplier == StructField(ty, k, ty.fields[k]);
    }
  }

  /** `get`: a list type gets a fresh category with its list-size node, a struct type a
      fresh category with its field extractions (both registered as the type's extraction
      category), and any other type the category registered for it, if there is one. */
  method Get(ty: ValueType, naming: Naming, extractions: Extractions) returns (r: Option<NodeCategory>)
    modifies extractions
    ensures ty.ListOf? ==>
              && r.Some? && fresh(r.value) && r.value.extractionType == Some(ty)
              && r.value.name == naming.fullName(ty) + " Extractions" && r.value.parent.None?
              && r.value.nodes == [Entry(naming.nodeName(ListSize(ty)), ListSize(ty))]
              && extractions.byType == old(extractions.byType)[ty := r.value]
    ensures ty.Struct? ==>
              && r.Some? && fresh(r.value) && r.value.extractionType == Some(ty)
              && r.value.name == naming.baseName(ty) + " Extractions" && r.value.parent.None?
              && r.value.nodes == SortBy(Entries(FieldSuppliers(ty), naming.nodeName), EntryName)
              && extractions.byType == old(extractions.byType)[ty := r.value]
    ensures !ty.ListOf? && !ty.Struct? ==>
              && r == (if ty in old(extractions.byType) then Some(old(extractions.byType)[ty]) else None)
              && extractions.byType == old(extractions.byType)
  {
    if ty.ListOf? {
      var c := GetListExtractions(ty, naming, extractions);
      r := Some(c);
    } else if ty.Struct? {
      var c := GetStructExtractions(ty, naming, extractions);
      r := Some(c);
    } else if ty in extractions.byType {
      r := Some(extractions.byType[ty]);
    } else {
      r := None;
    }
  }
}
