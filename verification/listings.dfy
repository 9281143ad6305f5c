/**
 * One ad on a results page and the listing record built from it.
 *
 * HTML parsing and CSS selection are not modelled: an item box is given as
 * the parts the scraper selects from it, each of which may be absent. A
 * listing is a Python dict, which keeps its keys in insertion order; it is
 * modelled as the sequence of its entries, and a dict assignment as `Put`.
 */
module Listings {
  import opened Wrappers
  import Text

  /** The first `<a>` of an item, with its `href` attribute if it has one. */
  datatype Anchor = Anchor(href: Option<string>)

  /** The first `<img>` of an item, with its `src` attribute if it has one. */
  datatype Image = Image(src: Option<string>)

  /** An item box: the text of the title, price and location elements if
      they exist, and its first anchor and first image if they exist. */
  datatype Item = Item(
    title: Option<string>,
    price: Option<string>,
    location: Option<string>,
    link: Option<Anchor>,
    image: Option<Image>)

  /** One key/value pair of a listing dict. */
  datatype Entry = Entry(key: string, value: string)

  /** A listing dict, its entries in insertion order. */
  type Listing = seq<Entry>

  /** The sentinel written for a part that could not be extracted. */
  const NotAvailable: string := "N/A"

  /** The site origin that relative `href`s are appended to. */
  const Origin: string := "https://www.olx.in"

  /** The CSS selectors of the three text fields, keyed by listing key, in
      the order the source's selector dict lists them. */
  const Selectors: seq<(string, string)> := [
    ("title", "[data-aut-id=\"itemTitle\"]"),
    ("price", "[data-aut-id=\"itemPrice\"]"),
    ("location", "[data-aut-id=\"item-location\"]")
  ]

  /** The keys every listing has, in the order they are inserted. */
  const ListingKeys: seq<string> := ["title", "price", "location", "url", "image_url"]

  /** `item.select_one(selector)`, reduced to the three selectors the
      scraper uses: the text of the selected element, if any. */
  function SelectText(item: Item, selector: string): Option<string>
  {
    if selector == Selectors[0].1 then item.title
    else if selector == Selectors[1].1 then item.price
    else if selector == Selectors[2].1 then item.location
    else None
  }

  /** The keys of a dict, in order. */
  function Keys(d: Listing): seq<string>
  {
    seq(|d|, i requires 0 <= i < |d| => d[i].key)
  }

  /** `d[key]`: the value stored under `key`, or `None` when it is absent. */
  function Lookup(d: Listing, key: string): Option<string>
  {
    if d == [] then None
    else if d[0].key == key then Some(d[0].value)
    else Lookup(d[1..], key)
  }

  /** Dict assignment `d[key] = value`: an existing key keeps its position
      and takes the new value; a new key is appended at the end. */
  function Put(d: Listing, key: string, value: string): Listing
  {
    if d == [] then [Entry(key, value)]
    else if d[0].key == key then [Entry(key, value)] + d[1..]
    else [d[0]] + Put(d[1..], key, value)
  }

  /** No key occurs twice in a dict. */
  predicate DistinctKeys(d: Listing)
  {
    forall i, j :: 0 <= i < j < |d| ==> d[i].key != d[j].key
  }

  /** Putting a key the dict does not have appends exactly one entry. */
  lemma {:induction false} PutNewKeyAppends(d: Listing, key: string, value: string)
    requires key !in Keys(d)
    ensures Put(d, key, value) == d + [Entry(key, value)]
  {
    if d != [] {
      assert Keys(d)[0] == d[0].key;
      assert key !in Keys(d[1..]) by {
        forall i | 0 <= i < |d| - 1 ensures Keys(d[1..])[i] != key {
          assert Keys(d[1..])[i] == Keys(d)[i + 1];
        }
      }
      PutNewKeyAppends(d[1..], key, value);
      assert d == [d[0]] + d[1..];
    }
  }

  /** Putting a key the dict already has, at position `i`, replaces that
      entry's value in place and leaves every other entry as it was. */
  lemma {:induction false} PutExistingKeyReplaces(d: Listing, i: nat, value: string)
    requires DistinctKeys(d) && i < |d|
    ensures Put(d, d[i].key, value) == d[i := Entry(d[i].key, value)]
  {
    if i > 0 {
      assert d[0].key != d[i].key;
      assert d[1..][i - 1] == d[i];
      PutExistingKeyReplaces(d[1..], i - 1, value);
      assert d[i := Entry(d[i].key, value)] == [d[0]] + d[1..][i - 1 := Entry(d[i].key, value)];
    }
  }

  /** In a dict without repeated keys, the value under the key at position
      `i` is the value at position `i`. */
  lemma {:induction false} LookupAt(d: Listing, i: nat)
    requires DistinctKeys(d) && i < |d|
    ensures Lookup(d, d[i].key) == Some(d[i].value)
  {
    if i > 0 {
      assert d[1..][i - 1] == d[i];
      LookupAt(d[1..], i - 1);
    }
  }

  /** The value of a text field: the stripped text, or the sentinel when the
      element is missing. */
  function TextOrNotAvailable(text: Option<string>, isSpace: char -> bool): string
  {
    match text
    case Some(t) => Text.Strip(t, isSpace)
    case None => NotAvailable
  }

  /** The `url` field: the origin followed by the anchor's `href`, or the
      sentinel when there is no anchor or it has no `href`. */
  function UrlOf(link: Option<Anchor>): string
  {
    if link.Some? && link.value.href.Some? then Origin + link.value.href.value else NotAvailable
  }

  /** The `image_url` field: the image's raw `src`, or the sentinel. */
  function ImageUrlOf(image: Option<Image>): string
  {
    if image.Some? && image.value.src.Some? then image.value.src.value else NotAvailable
  }

  /** The listing the scraper builds for one item. */
  function ListingOf(item: Item, isSpace: char -> bool): Listing
  {
    [ Entry("title", TextOrNotAvailable(item.title, isSpace)),
      Entry("price", TextOrNotAvailable(item.price, isSpace)),
      Entry("location", TextOrNotAvailable(item.location, isSpace)),
      Entry("url", UrlOf(item.link)),
      Entry("image_url", ImageUrlOf(item.image)) ]
  }

  /** The five keys are pairwise different. */
  lemma ListingKeysDistinct()
    ensures forall i, j :: 0 <= i < j < |ListingKeys| ==> ListingKeys[i] != ListingKeys[j]
  {
  }

  /** Position `i < 3` of a listing holds the key of the `i`-th selector and
      the value extracted with that selector. */
  lemma SelectorEntry(item: Item, isSpace: char -> bool, i: nat)
    requires i < |Selectors|
    ensures ListingOf(item, isSpace)[i]
      == Entry(Selectors[i].0, TextOrNotAvailable(SelectText(item, Selectors[i].1), isSpace))
  {
  }

  /** The keys of the first `i` entries of a listing are the first `i` listing keys. */
  lemma KeysOfPrefix(item: Item, isSpace: char -> bool, i: nat)
    requires i <= |ListingKeys|
    ensures Keys(ListingOf(item, isSpace)[..i]) == ListingKeys[..i]
  {
  }

  /** Assigning the key of position `i` to the first `i` entries of a
      listing, with that position's value, gives its first `i + 1` entries. */
  lemma PutNextEntry(item: Item, isSpace: char -> bool, i: nat)
    requires i < |ListingKeys|
    ensures Put(ListingOf(item, isSpace)[..i], ListingKeys[i], ListingOf(item, isSpace)[i].value)
      == ListingOf(item, isSpace)[..i + 1]
  {
    var spec := ListingOf(item, isSpace);
    KeysOfPrefix(item, isSpace, i);
    ListingKeysDistinct();
    assert ListingKeys[i] !in ListingKeys[..i];
    PutNewKeyAppends(spec[..i], ListingKeys[i], spec[i].value);
    assert spec[..i + 1] == spec[..i] + [spec[i]];
  }

  /** Builds the listing of one item key by key: the three text fields in a
      loop over the selectors, then `url` and `image_url`. */
  method BuildListing(item: Item, isSpace: char -> bool) returns (listing: Listing)
    ensures listing == ListingOf(item, isSpace)
  {
    ghost var spec := ListingOf(item, isSpace);
    listing := [];
    for i := 0 to |Selectors|
      invariant listing == spec[..i]
    {
      var (key, selector) := Selectors[i];
      var element := SelectText(item, selector);
      var value := if element.Some? then Text.Strip(element.value, isSpace) else NotAvailable;
      SelectorEntry(item, isSpace, i);
      assert key == ListingKeys[i] && value == spec[i].value;
      PutNextEntry(item, isSpace, i);
      listing := Put(listing, key, value);
    }
    PutNextEntry(item, isSpace, 3);
    assert ListingKeys[3] == "url" && spec[3].value == UrlOf(item.link);
    listing := Put(listing, "url", UrlOf(item.link));
    PutNextEntry(item, isSpace, 4);
    assert ListingKeys[4] == "image_url" && spec[4].value == ImageUrlOf(item.image);
    listing := Put(listing, "image_url", ImageUrlOf(item.image));
    assert spec[..5] == spec;
  }

  /** Every listing has exactly the five keys, in insertion order, and each
      value is the extracted part or the sentinel "N/A". */
  lemma ListingFields(item: Item, isSpace: char -> bool)
    ensures Keys(ListingOf(item, isSpace)) == ListingKeys
    ensures Lookup(ListingOf(item, isSpace), "title")
      == Some(if item.title.Some? then Text.Strip(item.title.value, isSpace) else NotAvailable)
    ensures Lookup(ListingOf(item, isSpace), "price")
      == Some(if item.price.Some? then Text.Strip(item.price.value, isSpace) else NotAvailable)
    ensures Lookup(ListingOf(item, isSpace), "location")
      == Some(if item.location.Some? then Text.Strip(item.location.value, isSpace) else NotAvailable)
    ensures Lookup(ListingOf(item, isSpace), "url")
      == Some(if item.link.Some? && item.link.value.href.Some? then Origin + item.link.value.href.value else NotAvailable)
    ensures Lookup(ListingOf(item, isSpace), "image_url")
      == Some(if item.image.Some? && item.image.value.src.Some? then item.image.value.src.value else NotAvailable)
  {
    var l := ListingOf(item, isSpace);
    KeysOfPrefix(item, isSpace, 5);
    ListingKeysDistinct();
    LookupAt(l, 0);
    LookupAt(l, 1);
    LookupAt(l, 2);
    LookupAt(l, 3);
    LookupAt(l, 4);
  }
}
