/** The item structure of common/molten_cJSON.h. */
module JsonItem {

  import opened Prelude

  /** The fields that are not links; reference is the cJSON_IsReference bit of type. */
  datatype Data = Data(kind: int, reference: bool, value: int, text: Option<string>, name: Option<string>)

  class Item {
    var next: Item?
    var prev: Item?
    var child: Item?
    var data: Data

    constructor (data: Data)
      ensures next == null && prev == null && child == null && this.data == data
    {
      next, prev, child, this.data := null, null, null, data;
    }
  }
}
