/** How ids and dates of a query result are shown: Extended JSON wrappers become shell literals. */
module ExtJson {
  import opened Text

  datatype Doc = Scalar(text: string) | Str(text: string) | List(items: Docs) | Dict(entries: Entries)

  datatype Docs = NoDocs | Docs(first: Doc, rest: Docs)

  datatype Entries = NoEntries | Entries(key: string, value: Doc, more: Entries)

  function ShownAs(name: string, content: string): string {
    name + "(\"" + content + "\")"
  }

  /** The literal for an object that is one `$oid` or `$date` with a string. */
  function Reformatted(v: Doc): Option<string> {
    if v.Dict? && v.entries.Entries? && v.entries.more.NoEntries? && v.entries.value.Str? then
      if v.entries.key == "$oid" then Some(ShownAs("ObjectId", v.entries.value.text))
      else if v.entries.key == "$date" then Some(ShownAs("ISODate", v.entries.value.text))
      else None
    else None
  }

  function Simplify(v: Doc): Doc {
    match Reformatted(v)
    case Some(text) => Str(text)
    case None =>
      match v
      case List(items) => List(SimplifyItems(items))
      case Dict(entries) => Dict(SimplifyEntries(entries))
      case _ => v
  }

  function SimplifyItems(items: Docs): Docs {
    if items.NoDocs? then items else Docs(Simplify(items.first), SimplifyItems(items.rest))
  }

  function SimplifyEntries(entries: Entries): Entries {
    if entries.NoEntries? then entries
    else Entries(entries.key, Simplify(entries.value), SimplifyEntries(entries.more))
  }

  // ----- what is shown, spelled out

  /** An id and a date with a string are shown as the shell's constructors. */
  lemma WrappersShown(s: string)
    ensures Simplify(Dict(Entries("$oid", Str(s), NoEntries))) == Str("ObjectId(\"" + s + "\")")
    ensures Simplify(Dict(Entries("$date", Str(s), NoEntries))) == Str("ISODate(\"" + s + "\")")
  {
    assert "ObjectId" + "(\"" == "ObjectId(\"" && "ISODate" + "(\"" == "ISODate(\"";
  }

  function Keys(entries: Entries): seq<string> {
    if entries.NoEntries? then [] else [entries.key] + Keys(entries.more)
  }

  function Values(entries: Entries): seq<Doc> {
    if entries.NoEntries? then [] else [entries.value] + Values(entries.more)
  }

  function Elements(items: Docs): seq<Doc> {
    if items.NoDocs? then [] else [items.first] + Elements(items.rest)
  }

  /** One key, `$oid` or `$date`, and a string. */
  predicate IsWrapper(entries: Entries) {
    (Keys(entries) == ["$oid"] || Keys(entries) == ["$date"]) && Values(entries) != [] && Values(entries)[0].Str?
  }

  predicate AllShown(values: seq<Doc>, shown: seq<Doc>) {
    |shown| == |values| && forall i | 0 <= i < |values| :: shown[i] == Simplify(values[i])
  }

  /** An object that is no such wrapper keeps its keys, in order, and shows each value in its place; a list
      shows each element in its place; anything else stays. */
  lemma OthersKeepShape(entries: Entries, items: Docs, text: string)
    ensures !IsWrapper(entries) ==>
      && Simplify(Dict(entries)).Dict?
      && Keys(Simplify(Dict(entries)).entries) == Keys(entries)
      && AllShown(Values(entries), Values(Simplify(Dict(entries)).entries))
    ensures Simplify(List(items)).List? && AllShown(Elements(items), Elements(Simplify(List(items)).items))
    ensures Simplify(Str(text)) == Str(text) && Simplify(Scalar(text)) == Scalar(text)
  {
    EntriesKeepShape(entries);
    ItemsKeepShape(items);
    OneEntry(entries);
  }

  lemma OneEntry(entries: Entries)
    ensures |Keys(entries)| == |Values(entries)|
    ensures |Keys(entries)| == 1 <==> entries.Entries? && entries.more.NoEntries?
    ensures |Keys(entries)| == 1 ==> Keys(entries) == [entries.key] && Values(entries) == [entries.value]
  {
    if entries.Entries? {
      OneEntry(entries.more);
    }
  }

  lemma {:induction false} EntriesKeepShape(entries: Entries)
    ensures var shown := SimplifyEntries(entries);
      Keys(shown) == Keys(entries) && AllShown(Values(entries), Values(shown))
  {
    hide Simplify;
    if entries.Entries? {
      EntriesKeepShape(entries.more);
    }
  }

  lemma {:induction false} ItemsKeepShape(items: Docs)
    ensures AllShown(Elements(items), Elements(SimplifyItems(items)))
  {
    hide Simplify;
    if items.Docs? {
      ItemsKeepShape(items.rest);
    }
  }

  /** No wrapper anywhere in the value. */
  predicate Unwrapped(v: Doc) {
    Reformatted(v).None? &&
    match v
    case List(items) => UnwrappedItems(items)
    case Dict(entries) => UnwrappedEntries(entries)
    case _ => true
  }

  predicate UnwrappedItems(items: Docs) {
    items.Docs? ==> Unwrapped(items.first) && UnwrappedItems(items.rest)
  }

  predicate UnwrappedEntries(entries: Entries) {
    entries.Entries? ==> Unwrapped(entries.value) && UnwrappedEntries(entries.more)
  }

  /** Only ids and dates change: a value is shown as it is exactly when it has no wrapper in it. */
  lemma {:induction false} SimplifyChangesWrappers(v: Doc)
    ensures Simplify(v) == v <==> Unwrapped(v)
  {
    match v
    case List(items) => SimplifyItemsChanges(items);
    case Dict(entries) => SimplifyEntriesChanges(entries);
    case _ =>
  }

  lemma {:induction false} SimplifyItemsChanges(items: Docs)
    ensures SimplifyItems(items) == items <==> UnwrappedItems(items)
  {
    if items.Docs? {
      SimplifyChangesWrappers(items.first);
      SimplifyItemsChanges(items.rest);
    }
  }

  lemma {:induction false} SimplifyEntriesChanges(entries: Entries)
    ensures SimplifyEntries(entries) == entries <==> UnwrappedEntries(entries)
  {
    if entries.Entries? {
      SimplifyChangesWrappers(entries.value);
      SimplifyEntriesChanges(entries.more);
    }
  }

  /** A wrapper around a wrapper: showing a shown value again changes it. */
  lemma SimplifyTwice()
    ensures var v := Dict(Entries("$oid", Dict(Entries("$oid", Str("x"), NoEntries)), NoEntries));
      Simplify(Simplify(v)) != Simplify(v)
  {
    var inner := Dict(Entries("$oid", Str("x"), NoEntries));
    var v := Dict(Entries("$oid", inner, NoEntries));
    assert Simplify(inner) == Str(ShownAs("ObjectId", "x"));
    assert SimplifyEntries(v.entries) == Entries("$oid", Simplify(inner), NoEntries);
    assert Simplify(v) == Dict(Entries("$oid", Simplify(inner), NoEntries));
  }

  /** A wrapper's content that is itself a value to be reformatted. */
  predicate DoublyWrapped(v: Doc) {
    && v.Dict? && v.entries.Entries? && v.entries.more.NoEntries?
    && (v.entries.key == "$oid" || v.entries.key == "$date")
    && Reformatted(v.entries.value).Some?
  }

  predicate NoneDoublyWrapped(v: Doc) {
    !DoublyWrapped(v) &&
    match v
    case List(items) => NoItemDoublyWrapped(items)
    case Dict(entries) => NoEntryDoublyWrapped(entries)
    case _ => true
  }

  predicate NoItemDoublyWrapped(items: Docs) {
    items.Docs? ==> NoneDoublyWrapped(items.first) && NoItemDoublyWrapped(items.rest)
  }

  predicate NoEntryDoublyWrapped(entries: Entries) {
    entries.Entries? ==> NoneDoublyWrapped(entries.value) && NoEntryDoublyWrapped(entries.more)
  }

  lemma SimplifiedIsString(v: Doc)
    ensures Simplify(v).Str? <==> v.Str? || Reformatted(v).Some?
  {
  }

  /** What is shown has no wrapper left exactly when no wrapper holds another one. */
  lemma {:induction false} SimplifyIdempotentIff(v: Doc)
    ensures Unwrapped(Simplify(v)) <==> NoneDoublyWrapped(v)
  {
    if Reformatted(v).None? {
      match v
      case List(items) => SimplifyItemsIdempotentIff(items);
      case Dict(entries) =>
        SimplifyEntriesIdempotentIff(entries);
        if entries.Entries? {
          SimplifiedIsString(entries.value);
        }
      case _ =>
    } else {
      assert NoneDoublyWrapped(v.entries.value) && NoEntryDoublyWrapped(v.entries.more);
    }
  }

  lemma {:induction false} SimplifyItemsIdempotentIff(items: Docs)
    ensures UnwrappedItems(SimplifyItems(items)) <==> NoItemDoublyWrapped(items)
  {
    if items.Docs? {
      SimplifyIdempotentIff(items.first);
      SimplifyItemsIdempotentIff(items.rest);
    }
  }

  lemma {:induction false} SimplifyEntriesIdempotentIff(entries: Entries)
    ensures UnwrappedEntries(SimplifyEntries(entries)) <==> NoEntryDoublyWrapped(entries)
  {
    if entries.Entries? {
      SimplifyIdempotentIff(entries.value);
      SimplifyEntriesIdempotentIff(entries.more);
    }
  }

  /** Showing a shown value again changes nothing exactly when no wrapper holds another one. */
  lemma SimplifySettlesIff(v: Doc)
    ensures Simplify(Simplify(v)) == Simplify(v) <==> NoneDoublyWrapped(v)
  {
    SimplifyIdempotentIff(v);
    SimplifyChangesWrappers(Simplify(v));
  }
}
