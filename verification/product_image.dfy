/** The product picture lookup (App/frontend/src/utils/productImageMap.js):
    a known barcode wins, then a known category, then the default picture. */
module ProductImage {
  import opened Wrappers

  /** The bundled SVG pictures. */
  datatype Picture =
    | Dairy | Beverages | Grains | Cereals | Vegetables | Fruits
    | Snacks | Sweets | PersonalCare | Household | Fallback

  /** `CATEGORY_MAP`, as an own-property table. */
  const CategoryMap: map<string, Picture> := map[
    "Dairy" := Dairy, "Beverages" := Beverages, "Grains" := Grains, "Cereals" := Cereals,
    "Vegetables" := Vegetables, "Fruits" := Fruits, "Snacks" := Snacks, "Sweets" := Sweets,
    "Personal Care" := PersonalCare, "Household" := Household]

  /** `BARCODE_IMAGE_MAP`, as an own-property table. */
  const BarcodeMap: map<string, Picture> := map[
    "8901234000001" := Dairy, "8901234000004" := Beverages, "8901234000007" := Grains,
    "8901234000009" := Cereals, "8901234000011" := Vegetables, "8901234000016" := Fruits,
    "8901234000020" := Snacks, "8901234000022" := Sweets, "8901234000024" := PersonalCare,
    "8901234000028" := Household]

  /** The fields of a product the lookup reads; `None` is a missing or falsy field. */
  datatype ProductInfo = ProductInfo(barcode: Option<string>, category: Option<string>)

  /** JavaScript truthiness of an optional string. */
  predicate Truthy(s: Option<string>) {
    s.Some? && s.value != ""
  }

  /** `getProductImage(product)` with lookups confined to the tables' own keys:
      `None` is a null or undefined product. */
  function GetProductImage(product: Option<ProductInfo>): (r: Picture)
    ensures product.None? ==> r == Fallback
    ensures product.Some? && Truthy(product.value.barcode) && product.value.barcode.value in BarcodeMap ==>
      r == BarcodeMap[product.value.barcode.value]
    ensures product.Some? && !(Truthy(product.value.barcode) && product.value.barcode.value in BarcodeMap) ==>
      (Truthy(product.value.category) && product.value.category.value in CategoryMap ==>
         r == CategoryMap[product.value.category.value])
    ensures r == Fallback <==>
      product.None? ||
      (!(Truthy(product.value.barcode) && product.value.barcode.value in BarcodeMap) &&
       !(Truthy(product.value.category) && product.value.category.value in CategoryMap))
  {
    match product
    case None => Fallback
    case Some(p) =>
      if Truthy(p.barcode) && p.barcode.value in BarcodeMap then BarcodeMap[p.barcode.value]
      else if Truthy(p.category) && p.category.value in CategoryMap then CategoryMap[p.category.value]
      else Fallback
  }

  // ---------------------------------------------------------------------------
  // The lookup as the source writes it: `MAP[key]` on a plain object literal

  /** The properties every plain object inherits from `Object.prototype`. */
  const PrototypeKeys: set<string> := {
    "constructor", "hasOwnProperty", "isPrototypeOf", "propertyIsEnumerable",
    "toLocaleString", "toString", "valueOf", "__proto__",
    "__defineGetter__", "__defineSetter__", "__lookupGetter__", "__lookupSetter__"}

  /** What `MAP[key]` can yield: an own picture, or an inherited member (a
      function, or `Object.prototype` itself), each of which is truthy. */
  datatype Found = Own(picture: Picture) | Inherited(member: string)

  /** `MAP[key]` on an object literal: own keys first, then the prototype chain. */
  function PlainLookup(table: map<string, Picture>, key: string): (r: Option<Found>)
    ensures r.Some? <==> key in table || key in PrototypeKeys
    ensures key in table ==> r == Some(Own(table[key]))
  {
    if key in table then Some(Own(table[key]))
    else if key in PrototypeKeys then Some(Inherited(key))
    else None
  }

  /** `getProductImage(product)` exactly as written: an inherited member is truthy,
      so it is returned in place of a picture. */
  function GetProductImageAsWritten(product: Option<ProductInfo>): (r: Found)
    ensures r.Inherited? ==>
      && product.Some?
      && ((Truthy(product.value.barcode) && product.value.barcode.value in PrototypeKeys) ||
          (Truthy(product.value.category) && product.value.category.value in PrototypeKeys))
  {
    match product
    case None => Own(Fallback)
    case Some(p) =>
      var byBarcode := if Truthy(p.barcode) then PlainLookup(BarcodeMap, p.barcode.value) else None;
      var byCategory := if Truthy(p.category) then PlainLookup(CategoryMap, p.category.value) else None;
      if byBarcode.Some? then byBarcode.value
      else if byCategory.Some? then byCategory.value
      else Own(Fallback)
  }

  /** Away from inherited names the written lookup is the own-key lookup. */
  lemma AsWrittenAgreesOffPrototype(product: Option<ProductInfo>)
    requires product.Some? ==>
      (product.value.barcode.Some? ==> product.value.barcode.value !in PrototypeKeys) &&
      (product.value.category.Some? ==> product.value.category.value !in PrototypeKeys)
    ensures GetProductImageAsWritten(product) == Own(GetProductImage(product))
  {
  }

  /** A product whose category is "constructor" gets `Object` (a function), not a picture. */
  lemma InheritedNameReturnsNonPicture()
    ensures GetProductImageAsWritten(Some(ProductInfo(None, Some("constructor")))) == Inherited("constructor")
    ensures GetProductImage(Some(ProductInfo(None, Some("constructor")))) == Fallback
  {
    assert "constructor"[0] == 'c';
  }
}
