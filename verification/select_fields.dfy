/** The automation action's placeholder field picker: which attributions
    start selected, how a field is added and removed, and which
    attributions remain on offer. The component state and the `onSelect`
    callback's argument are returned as values. */
module SelectFields {
  import opened Wrappers
  import opened Seqs

  datatype Attribution = Attribution(id: string, name: string, labelText: string)

  /** The action's config object; `None` is a property present with the
      value `undefined`. */
  type Config = map<string, Option<string>>

  /** Some selected field has this `_id`. */
  predicate Selected(fields: seq<Attribution>, id: string) {
    exists i :: 0 <= i < |fields| && fields[i].id == id
  }

  /** `componentDidMount`: the attributions whose name is a key of the
      config, in attribution order. */
  function InitialFields(attributions: seq<Attribution>, config: Config): (fields: seq<Attribution>)
    ensures forall a :: a in fields <==> a in attributions && a.name in config
    ensures |fields| <= |attributions|
  {
    Filter(attributions, (a: Attribution) => a.name in config)
  }

  /** Selection keeps the attribution order: the fields selected from two
      consecutive runs of attributions are those of each run, in turn. */
  lemma InitialFieldsKeepOrder(a: seq<Attribution>, b: seq<Attribution>, config: Config)
    ensures InitialFields(a + b, config) == InitialFields(a, config) + InitialFields(b, config)
  {
    FilterConcat(a, b, (x: Attribution) => x.name in config);
  }

  datatype Removal = Removal(fields: seq<Attribution>, config: Config)

  /** `removeField(field)`: every field with its `_id` leaves the selection
      and the config gets the property `name: undefined`; the other config
      properties are untouched. */
  function RemoveField(fields: seq<Attribution>, config: Config, field: Attribution): (r: Removal)
    ensures forall f :: f in r.fields <==> f in fields && f.id != field.id
    ensures !Selected(r.fields, field.id)
    ensures r.config.Keys == config.Keys + {field.name}
    ensures r.config[field.name] == None
    ensures forall k :: k in config && k != field.name ==> r.config[k] == config[k]
  {
    var kept := Filter(fields, (f: Attribution) => f.id != field.id);
    assert forall i :: 0 <= i < |kept| ==> kept[i] in kept;
    Removal(kept, config[field.name := None])
  }

  /** Removal keeps the order of the fields it keeps: removing from a
      concatenation concatenates the removals. */
  lemma RemoveFieldKeepsOrder(a: seq<Attribution>, b: seq<Attribution>, config: Config, field: Attribution)
    ensures RemoveField(a + b, config, field).fields ==
            RemoveField(a, config, field).fields + RemoveField(b, config, field).fields
  {
    FilterConcat(a, b, (f: Attribution) => f.id != field.id);
  }

  datatype Pick = Pick(fields: seq<Attribution>, selected: Option<Config>)

  /** The text a picked field's config property defaults to. */
  function DefaultValue(name: string): string {
    "{{ " + name + " }}"
  }

  /** `onClickField(item)`: the item is appended to the selection; with
      `withDefaultValue`, `onSelect` receives the config with the item's
      property set to its placeholder, and otherwise it is not called. */
  function ClickField(fields: seq<Attribution>, config: Config, item: Attribution, withDefaultValue: bool): (r: Pick)
    ensures |r.fields| == |fields| + 1 && r.fields[..|fields|] == fields && r.fields[|fields|] == item
    ensures r.selected.Some? <==> withDefaultValue
    ensures r.selected.Some? ==>
              r.selected.value.Keys == config.Keys + {item.name} &&
              r.selected.value[item.name] == Some(DefaultValue(item.name)) &&
              forall k :: k in config && k != item.name ==> r.selected.value[k] == config[k]
  {
    Pick(fields + [item], if withDefaultValue then Some(config[item.name := Some(DefaultValue(item.name))]) else None)
  }

  /** The attributions offered in the popover: those whose `_id` no selected
      field has, in attribution order. */
  function Available(attributions: seq<Attribution>, fields: seq<Attribution>): (r: seq<Attribution>)
    ensures forall a :: a in r <==> a in attributions && !Selected(fields, a.id)
  {
    Filter(attributions, (a: Attribution) => !Selected(fields, a.id))
  }

  /** The offer lists the attributions in the order they arrive: splitting
      the list splits the offer at the same place. */
  lemma AvailableKeepsOrder(a: seq<Attribution>, b: seq<Attribution>, fields: seq<Attribution>)
    ensures Available(a + b, fields) == Available(a, fields) + Available(b, fields)
  {
    FilterConcat(a, b, (x: Attribution) => !Selected(fields, x.id));
  }

  /** Picking an offered item takes exactly the attributions sharing its
      `_id` off the offer. */
  lemma PickedItemLeavesOffer(attributions: seq<Attribution>, fields: seq<Attribution>, config: Config,
                              item: Attribution, withDefaultValue: bool)
    ensures var after := ClickField(fields, config, item, withDefaultValue).fields;
            forall a :: a in Available(attributions, after) <==>
              a in Available(attributions, fields) && a.id != item.id
  {
    var after := fields + [item];
    forall a: Attribution
      ensures Selected(after, a.id) <==> Selected(fields, a.id) || a.id == item.id
    {
      if Selected(after, a.id) {
        var i :| 0 <= i < |after| && after[i].id == a.id;
        if i < |fields| {
          assert fields[i] == after[i];
        }
      }
      if Selected(fields, a.id) {
        var i :| 0 <= i < |fields| && fields[i].id == a.id;
        assert after[i] == fields[i];
      }
      if a.id == item.id {
        assert after[|fields|] == item;
      }
    }
  }

  /** Removing a field that was just picked restores the selection, when no
      selected field already shared its `_id` (which the offer ensures). */
  lemma RemoveUndoesPick(fields: seq<Attribution>, config: Config, item: Attribution, withDefaultValue: bool)
    requires !Selected(fields, item.id)
    ensures RemoveField(ClickField(fields, config, item, withDefaultValue).fields, config, item).fields == fields
  {
    var keep := (f: Attribution) => f.id != item.id;
    FilterConcat(fields, [item], keep);
    FilterAll(fields, keep);
    assert Filter([item], keep) == [];
  }

  /** A removed field's property stays in the config with the value
      `undefined`, so the mount-time selection still picks it up. */
  lemma RemovedFieldStillKeyed(attributions: seq<Attribution>, fields: seq<Attribution>, config: Config,
                               field: Attribution)
    requires field in attributions
    ensures field in InitialFields(attributions, RemoveField(fields, config, field).config)
  {
  }
}
