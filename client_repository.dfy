/**
 * The client-side table of distributed objects: the dc classes listed by
 * number and by name, the live objects with their classes, and the cache
 * of disabled objects that a later generate may revive.
 *
 * The dc file is given as its list of classes; datagrams, field values
 * and the calls the repository hands on to objects and classes are
 * recorded as a trace of calls.
 */
module ClientRepositories {
  import opened Wrappers

  /** One class of the dc file: its number and its name. */
  datatype DcClass = DcClass(number: int, name: string)

  /** The client-side wrapper made for each dc class. */
  datatype ClientDistClass = ClientDistClass(dcClass: DcClass)

  /** An incoming datagram, past the values the repository itself reads from it. */
  type Datagram = seq<int>

  /** A distributed object; its class constructor is chosen by the class name. */
  class DistributedObject {
    var doId: int
    const className: string

    constructor (className: string)
      ensures this.className == className
    {
      this.className := className;
    }
  }

  /** Which of the two required-field updates a generate message asks for. */
  datatype RequiredSet = Required | RequiredOther

  datatype WarningKind = DisableFailed | DeleteMissing

  /** The calls the repository makes on objects and classes, and its warnings. */
  datatype Call =
    | UpdateRequiredFields(fields: RequiredSet, obj: DistributedObject, cdc: ClientDistClass, di: Datagram)
    | DeleteObject(obj: DistributedObject)
    | UpdateField(cdc: ClientDistClass, obj: DistributedObject, di: Datagram)
    | SendUpdate(cdc: ClientDistClass, obj: DistributedObject, fieldName: string, args: seq<int>)
    | Warning(kind: WarningKind, doId: int)

  function ClassNumber(c: DcClass): int { c.number }
  function ClassName(c: DcClass): string { c.name }

  /** The table after listing each class, in order, under its key; a later class with the same key replaces an earlier one. */
  function Register<K(==)>(m: map<K, ClientDistClass>, classes: seq<DcClass>, key: DcClass -> K): map<K, ClientDistClass> {
    if classes == [] then m
    else
      var last := classes[|classes| - 1];
      Register(m, classes[..|classes| - 1], key)[key(last) := ClientDistClass(last)]
  }

  /** After registering, the table is keyed by the old keys and the keys of all the classes. */
  lemma {:induction false} RegisterKeys<K>(m: map<K, ClientDistClass>, classes: seq<DcClass>, key: DcClass -> K)
    ensures Register(m, classes, key).Keys == m.Keys + set i | 0 <= i < |classes| :: key(classes[i])
  {
    if classes != [] {
      var init := classes[..|classes| - 1];
      RegisterKeys(m, init, key);
      assert (set i | 0 <= i < |classes| :: key(classes[i])) ==
             (set i | 0 <= i < |init| :: key(init[i])) + {key(classes[|classes| - 1])};
    }
  }

  /** A class that no later class shares a key with is found under its key. */
  lemma {:induction false} RegisterLookup<K>(m: map<K, ClientDistClass>, classes: seq<DcClass>, key: DcClass -> K, i: int)
    requires 0 <= i < |classes|
    requires forall j :: i < j < |classes| ==> key(classes[j]) != key(classes[i])
    ensures key(classes[i]) in Register(m, classes, key)
    ensures Register(m, classes, key)[key(classes[i])] == ClientDistClass(classes[i])
  {
    if i < |classes| - 1 {
      var init := classes[..|classes| - 1];
      assert init[i] == classes[i];
      RegisterLookup(m, init, key, i);
      assert key(classes[|classes| - 1]) != key(classes[i]);
    }
  }

  /** A key that no class has keeps its old entry. */
  lemma {:induction false} RegisterOther<K>(m: map<K, ClientDistClass>, classes: seq<DcClass>, key: DcClass -> K, k: K)
    requires k in m
    requires forall j :: 0 <= j < |classes| ==> key(classes[j]) != k
    ensures k in Register(m, classes, key) && Register(m, classes, key)[k] == m[k]
  {
    if classes != [] {
      var init := classes[..|classes| - 1];
      assert forall j :: 0 <= j < |init| ==> init[j] == classes[j];
      RegisterOther(m, init, key, k);
      assert key(classes[|classes| - 1]) != k;
    }
  }

  /** With distinct numbers and distinct names, every class is found both by its number and by its name. */
  lemma ParseDistinct(classes: seq<DcClass>, i: int)
    requires 0 <= i < |classes|
    requires forall j, l :: 0 <= j < l < |classes| ==> classes[j].number != classes[l].number && classes[j].name != classes[l].name
    ensures var byNumber := Register(map[], classes, ClassNumber);
      classes[i].number in byNumber && byNumber[classes[i].number] == ClientDistClass(classes[i])
    ensures var byName := Register(map[], classes, ClassName);
      classes[i].name in byName && byName[classes[i].name] == ClientDistClass(classes[i])
  {
    RegisterLookup(map[], classes, ClassNumber, i);
    RegisterLookup(map[], classes, ClassName, i);
  }

  class ClientRepository {
    const aiClientFlag: bool
    var number2cdc: map<int, ClientDistClass>
    var name2cdc: map<string, ClientDistClass>
    var doId2do: map<int, DistributedObject>
    var doId2cdc: map<int, ClientDistClass>
    /** The cache of disabled objects, keyed by their doId. */
    var cache: map<int, DistributedObject>
    var calls: seq<Call>

    /**
     * The live objects and their classes share one key set, no live
     * object is also cached, and every object is keyed by its own doId.
     */
    predicate Valid()
      reads this, doId2do.Values, cache.Values
    {
      doId2do.Keys == doId2cdc.Keys &&
      doId2do.Keys !! cache.Keys &&
      (forall k :: k in doId2do ==> doId2do[k].doId == k) &&
      (forall k :: k in cache ==> cache[k].doId == k)
    }

    /** The repository over a dc file with the given classes: both class tables filled, no objects, an empty cache. */
    constructor (classes: seq<DcClass>, aiClientFlag: bool)
      ensures Valid() && this.aiClientFlag == aiClientFlag
      ensures number2cdc == Register(map[], classes, ClassNumber)
      ensures name2cdc == Register(map[], classes, ClassName)
      ensures doId2do == map[] && doId2cdc == map[] && cache == map[] && calls == []
    {
      this.aiClientFlag := aiClientFlag;
      number2cdc := map[];
      name2cdc := map[];
      doId2do := map[];
      doId2cdc := map[];
      cache := map[];
      calls := [];
      new;
      ParseDcClasses(classes);
    }

    /** Lists a client class for every dc class, by number and by name. */
    method ParseDcClasses(classes: seq<DcClass>)
      modifies this`number2cdc, this`name2cdc
      ensures number2cdc == Register(old(number2cdc), classes, ClassNumber)
      ensures name2cdc == Register(old(name2cdc), classes, ClassName)
    {
      for i := 0 to |classes|
        invariant number2cdc == Register(old(number2cdc), classes[..i], ClassNumber)
        invariant name2cdc == Register(old(name2cdc), classes[..i], ClassName)
      {
        var dcClass := classes[i];
        var clientDistClass := ClientDistClass(dcClass);
        assert classes[..i + 1][..i] == classes[..i];
        number2cdc := number2cdc[dcClass.number := clientDistClass];
        name2cdc := name2cdc[dcClass.name := clientDistClass];
      }
      assert classes[..|classes|] == classes;
    }

    /**
     * Generates doId with its required (or required-other) fields: a live
     * object is updated in place, a cached one is revived into both
     * tables, and otherwise a new object of the class is made with that
     * doId and entered in both tables.
     */
    method Generate(cdc: ClientDistClass, doId: int, di: Datagram, fields: RequiredSet) returns (distObj: DistributedObject)
      requires Valid()
      modifies this`doId2do, this`doId2cdc, this`cache, this`calls
      ensures Valid()
      ensures calls == old(calls) + [UpdateRequiredFields(fields, distObj, cdc, di)]
      ensures doId in doId2do && doId2do[doId] == distObj
      ensures old(doId in doId2do) ==>
        distObj == old(doId2do[doId]) && doId2do == old(doId2do) && doId2cdc == old(doId2cdc) && cache == old(cache)
      ensures old(doId !in doId2do && doId in cache) ==>
        distObj == old(cache[doId]) && cache == old(cache) - {doId} &&
        doId2do == old(doId2do)[doId := distObj] && doId2cdc == old(doId2cdc)[doId := cdc]
      ensures old(doId !in doId2do && doId !in cache) ==>
        fresh(distObj) && distObj.doId == doId && distObj.className == cdc.dcClass.name &&
        doId2do == old(doId2do)[doId := distObj] && doId2cdc == old(doId2cdc)[doId := cdc] && cache == old(cache)
    {
      if doId in doId2do {
        distObj := doId2do[doId];
        calls := calls + [UpdateRequiredFields(fields, distObj, cdc, di)];
      } else if doId in cache {
        distObj := cache[doId];
        cache := cache - {doId};
        doId2do := doId2do[doId := distObj];
        doId2cdc := doId2cdc[doId := cdc];
        calls := calls + [UpdateRequiredFields(fields, distObj, cdc, di)];
      } else {
        distObj := new DistributedObject(cdc.dcClass.name);
        distObj.doId := doId;
        calls := calls + [UpdateRequiredFields(fields, distObj, cdc, di)];
        doId2do := doId2do[doId := distObj];
        doId2cdc := doId2cdc[doId := cdc];
      }
    }

    /** A generate message: an unknown class number fails the lookup and changes nothing. */
    method HandleGenerate(classId: int, doId: int, di: Datagram, fields: RequiredSet) returns (r: Option<DistributedObject>)
      requires Valid()
      modifies this`doId2do, this`doId2cdc, this`cache, this`calls
      ensures Valid()
      ensures r.None? <==> classId !in number2cdc
      ensures r.None? ==> doId2do == old(doId2do) && doId2cdc == old(doId2cdc) && cache == old(cache) && calls == old(calls)
      ensures r.Some? ==>
        doId in doId2do && doId2do[doId] == r.value &&
        calls == old(calls) + [UpdateRequiredFields(fields, r.value, number2cdc[classId], di)]
      ensures r.Some? && old(doId in doId2do) ==>
        r.value == old(doId2do[doId]) && doId2do == old(doId2do) && doId2cdc == old(doId2cdc) && cache == old(cache)
      ensures r.Some? && old(doId !in doId2do && doId in cache) ==>
        r.value == old(cache[doId]) && cache == old(cache) - {doId} &&
        doId2do == old(doId2do)[doId := r.value] && doId2cdc == old(doId2cdc)[doId := number2cdc[classId]]
      ensures r.Some? && old(doId !in doId2do && doId !in cache) ==>
        fresh(r.value) && r.value.doId == doId && r.value.className == number2cdc[classId].dcClass.name &&
        doId2do == old(doId2do)[doId := r.value] && doId2cdc == old(doId2cdc)[doId := number2cdc[classId]] && cache == old(cache)
    {
      if classId !in number2cdc {
        return None;
      }
      var distObj := Generate(number2cdc[classId], doId, di, fields);
      return Some(distObj);
    }

    /** Disabling moves a live object from both tables into the cache; an unknown doId only draws a warning. */
    method DisableDoId(doId: int)
      requires Valid()
      modifies this`doId2do, this`doId2cdc, this`cache, this`calls
      ensures Valid()
      ensures |doId2do| == |doId2cdc|
      ensures old(doId in doId2do) ==>
        doId2do == old(doId2do) - {doId} && doId2cdc == old(doId2cdc) - {doId} &&
        cache == old(cache)[doId := old(doId2do[doId])] && calls == old(calls)
      ensures old(doId !in doId2do) ==>
        doId2do == old(doId2do) && doId2cdc == old(doId2cdc) && cache == old(cache) &&
        calls == old(calls) + [Warning(DisableFailed, doId)]
    {
      if doId in doId2do {
        var distObj := doId2do[doId];
        doId2do := doId2do - {doId};
        doId2cdc := doId2cdc - {doId};
        assert |doId2do| == |doId2do.Keys| == |doId2cdc.Keys| == |doId2cdc|;
        cache := cache[distObj.doId := distObj];
      } else {
        calls := calls + [Warning(DisableFailed, doId)];
      }
    }

    /** Deleting removes a live object from both tables without caching it; a cached one leaves the cache; any other doId only draws a warning. */
    method HandleDelete(doId: int)
      requires Valid()
      modifies this`doId2do, this`doId2cdc, this`cache, this`calls
      ensures Valid()
      ensures |doId2do| == |doId2cdc|
      ensures doId !in doId2do && doId !in cache
      ensures old(doId in doId2do) ==>
        doId2do == old(doId2do) - {doId} && doId2cdc == old(doId2cdc) - {doId} && cache == old(cache) &&
        calls == old(calls) + [DeleteObject(old(doId2do[doId]))]
      ensures old(doId !in doId2do && doId in cache) ==>
        doId2do == old(doId2do) && doId2cdc == old(doId2cdc) && cache == old(cache) - {doId} && calls == old(calls)
      ensures old(doId !in doId2do && doId !in cache) ==>
        doId2do == old(doId2do) && doId2cdc == old(doId2cdc) && cache == old(cache) &&
        calls == old(calls) + [Warning(DeleteMissing, doId)]
    {
      if doId in doId2do {
        var obj := doId2do[doId];
        doId2do := doId2do - {doId};
        doId2cdc := doId2cdc - {doId};
        assert |doId2do| == |doId2do.Keys| == |doId2cdc.Keys| == |doId2cdc|;
        calls := calls + [DeleteObject(obj)];
      } else if doId in cache {
        cache := cache - {doId};
      } else {
        calls := calls + [Warning(DeleteMissing, doId)];
      }
    }

    /** A field update goes to the class of a live object; for any other doId the sanity check fails and no call is made. */
    method HandleUpdateField(doId: int, di: Datagram) returns (ok: bool)
      requires Valid()
      modifies this`calls
      ensures ok <==> doId in doId2do && doId in doId2cdc
      ensures ok ==> calls == old(calls) + [UpdateField(doId2cdc[doId], doId2do[doId], di)]
      ensures !ok ==> calls == old(calls)
    {
      if doId !in doId2do {
        return false;
      }
      var obj := doId2do[doId];
      if doId !in doId2cdc {
        return false;
      }
      var cdc := doId2cdc[doId];
      calls := calls + [UpdateField(cdc, obj, di)];
      return true;
    }

    /** An outgoing update goes through the class listed for the object's doId; an unlisted doId fails the sanity check. */
    method SendObjectUpdate(obj: DistributedObject, fieldName: string, args: seq<int>) returns (ok: bool)
      modifies this`calls
      ensures ok <==> obj.doId in doId2cdc
      ensures ok ==> calls == old(calls) + [SendUpdate(doId2cdc[obj.doId], obj, fieldName, args)]
      ensures !ok ==> calls == old(calls)
    {
      var doId := obj.doId;
      if doId !in doId2cdc {
        return false;
      }
      var cdc := doId2cdc[doId];
      calls := calls + [SendUpdate(cdc, obj, fieldName, args)];
      return true;
    }
  }
}
