/** Pure utilities: field filtering, in-memory pagination, the paginate-plugin options and
    the paths under which uploaded images are stored and served. */
module Helpers {
  import opened Base
  import Strs

  function Min(a: int, b: int): int { if a <= b then a else b }
  function Max(a: int, b: int): int { if a >= b then a else b }

  // ---------------------------------------------------------------- field filtering

  /** A plain JavaScript object: its own keys, each holding a value or `undefined` (`None`). */
  type Obj<V> = map<string, Option<V>>

  /** `o[k]`: the value under `k`, `undefined` when `k` is not a key. */
  function Get<V>(o: Obj<V>, k: string): Option<V> {
    if k in o then o[k] else None
  }

  /** The object the `forEach` over `fields` builds: each field whose TRIMMED name is a key of
      `o` is copied under its UNTRIMMED name, reading `o` under the untrimmed name too. */
  function Picked<V>(fields: seq<string>, o: Obj<V>): (r: Obj<V>)
    ensures forall k :: k in r <==> k in fields && Strs.Trim(k) in o
    ensures forall k :: k in r ==> r[k] == Get(o, k)
  {
    if |fields| == 0 then map[]
    else
      var f := fields[|fields| - 1];
      var rest := Picked(fields[..|fields| - 1], o);
      assert forall k :: k in fields <==> k in fields[..|fields| - 1] || k == f;
      if Strs.Trim(f) in o then rest[f := Get(o, f)] else rest
  }

  /** One object of `filterObjectKeys`: the picked fields, or the original object when no
      field matched. */
  function FilterObject<V>(fields: seq<string>, o: Obj<V>): (r: Obj<V>)
    ensures (exists f :: f in fields && Strs.Trim(f) in o) ==>
              (forall k :: k in r <==> k in fields && Strs.Trim(k) in o)
              && (forall k :: k in r ==> r[k] == Get(o, k))
    ensures (forall f :: f in fields ==> Strs.Trim(f) !in o) ==> r == o
  {
    var p := Picked(fields, o);
    if |p| > 0 then p
    else
      assert p == map[];
      o
  }

  /** `filterObjectKeys(fieldsArray, objectArray)`. */
  function FilterObjectKeys<V>(fields: seq<string>, objs: seq<Obj<V>>): (r: seq<Obj<V>>)
    ensures |r| == |objs|
    ensures forall i :: 0 <= i < |objs| ==> r[i] == FilterObject(fields, objs[i])
  {
    if |objs| == 0 then []
    else [FilterObject(fields, objs[0])] + FilterObjectKeys(fields, objs[1..])
  }

  // ---------------------------------------------------------------- pagination

  /** How `Array.prototype.slice` reads an index: negative counts from the end, and the
      result is clamped to `[0, len]`. */
  function SliceIndex(i: int, len: nat): (r: nat)
    ensures r <= len
    ensures 0 <= i ==> r == Min(i, len)
    ensures i < 0 ==> r == Max(len + i, 0)
  {
    if i < 0 then (if len + i < 0 then 0 else len + i)
    else Min(i, len)
  }

  /** Normalised positions are never further apart than the indices they came from. */
  lemma SliceIndexGap(a: int, b: int, len: nat)
    ensures a <= b ==> SliceIndex(b, len) - SliceIndex(a, len) <= b - a
  {
  }

  /** `s.slice(start, end)`. */
  function Slice<T>(s: seq<T>, start: int, end: int): (r: seq<T>)
    ensures start <= end ==> |r| <= end - start
    ensures 0 <= start <= end ==> r == s[Min(start, |s|)..Min(end, |s|)]
    ensures SliceIndex(start, |s|) < SliceIndex(end, |s|) ==> r == s[SliceIndex(start, |s|)..SliceIndex(end, |s|)]
    ensures SliceIndex(end, |s|) <= SliceIndex(start, |s|) ==> r == []
  {
    var from := SliceIndex(start, |s|);
    var to := SliceIndex(end, |s|);
    if from < to then
      SliceIndexGap(start, end, |s|);
      s[from..to]
    else []
  }

  /** `Math.ceil(n / d)` for a non-negative numerator and positive divisor. */
  function CeilDiv(n: nat, d: nat): (r: nat)
    requires d >= 1
    ensures r * d >= n
    ensures r == 0 || (r - 1) * d < n
  {
    var q := (n + d - 1) / d;
    assert q * d <= n + d - 1 < (q + 1) * d;
    q
  }

  /** The object `getPaginatedPayload` returns. */
  datatype Page<T> = Page(
    page: int,
    limit: int,
    totalPages: nat,
    previousPage: bool,
    nextPage: bool,
    totalItems: nat,
    currentPageItems: nat,
    data: seq<T>)

  /** `(page - 1) * limit`: the index of the first item on `page`. */
  function PageStart(page: int, limit: int): (r: int)
    requires limit >= 1
    ensures page >= 1 ==> r >= 0
    ensures r + limit == page * limit
  {
    MulNonNegative(page - 1, limit);
    assert (page - 1) * limit + limit == page * limit;
    (page - 1) * limit
  }

  /** `getPaginatedPayload(dataArray, page, limit)`. */
  function PaginatedPayload<T>(items: seq<T>, page: int, limit: int): (r: Page<T>)
    requires limit >= 1
    ensures r.page == page && r.limit == limit
    ensures r.totalItems == |items|
    ensures r.totalPages * limit >= |items|
    ensures r.totalPages == 0 || (r.totalPages - 1) * limit < |items|
    ensures r.previousPage <==> page > 1
    ensures r.nextPage <==> page < r.totalPages
    ensures r.currentPageItems == |r.data| <= limit
    ensures page >= 1 ==>
              r.data == items[Min(PageStart(page, limit), |items|)..Min(PageStart(page, limit) + limit, |items|)]
  {
    var start := PageStart(page, limit);
    var totalPages := CeilDiv(|items|, limit);
    var data := Slice(items, start, start + limit);
    Page(page, limit, totalPages, page > 1, page < totalPages, |items|, |data|, data)
  }

  lemma MulNonNegative(a: int, b: int)
    ensures a >= 0 && b >= 0 ==> a * b >= 0
  {
  }

  /** Pages `1..k` of `items`, concatenated. */
  function PagesUpTo<T>(items: seq<T>, limit: int, k: nat): seq<T>
    requires limit >= 1
  {
    if k == 0 then [] else PagesUpTo(items, limit, k - 1) + PaginatedPayload(items, k, limit).data
  }

  lemma {:induction false} PagesUpToPrefix<T>(items: seq<T>, limit: int, k: nat)
    requires limit >= 1
    ensures PagesUpTo(items, limit, k) == items[..Min(k * limit, |items|)]
  {
    if k > 0 {
      PagesUpToPrefix(items, limit, k - 1);
      assert PageStart(k, limit) == (k - 1) * limit;
      assert PageStart(k, limit) + limit == k * limit;
      var lo := Min(PageStart(k, limit), |items|);
      var hi := Min(k * limit, |items|);
      assert PaginatedPayload(items, k, limit).data == items[lo..hi];
      assert items[..lo] + items[lo..hi] == items[..hi];
    }
  }

  /** Reading pages `1..totalPages` in order gives back exactly the input, so every item
      lies on exactly one page. */
  lemma PagesReassemble<T>(items: seq<T>, limit: int)
    requires limit >= 1
    ensures PagesUpTo(items, limit, PaginatedPayload(items, 1, limit).totalPages) == items
  {
    var n := PaginatedPayload(items, 1, limit).totalPages;
    PagesUpToPrefix(items, limit, n);
  }

  /** The options handed to the paginate plugin (`mongoose.PaginateOptions`). */
  datatype PaginateOptions = PaginateOptions(
    page: int,
    limit: int,
    pagination: bool,
    customLabels: map<string, string>)

  const DefaultPagingCounterLabel := "serialNumberStartFrom"

  /** `getMongoosePaginationOptions({ page = 1, limit = 10, customLabels })`. */
  function MongoosePaginationOptions(
    page: Option<int>, limit: Option<int>, customLabels: Option<map<string, string>>): (r: PaginateOptions)
    ensures r.page >= 1 && r.limit >= 1 && r.pagination
    ensures r.page == (if page.None? then 1 else Max(page.value, 1))
    ensures r.limit == (if limit.None? then 10 else Max(limit.value, 1))
    ensures r.customLabels.Keys == customLabels.GetOr(map[]).Keys + {"pagingCounter"}
    ensures forall k :: k in customLabels.GetOr(map[]) ==> r.customLabels[k] == customLabels.GetOr(map[])[k]
    ensures "pagingCounter" !in customLabels.GetOr(map[]) ==>
              r.customLabels["pagingCounter"] == DefaultPagingCounterLabel
  {
    var labels := customLabels.GetOr(map[]);
    PaginateOptions(
      Max(page.GetOr(1), 1),
      Max(limit.GetOr(10), 1),
      true,
      map["pagingCounter" := DefaultPagingCounterLabel] + labels)
  }

  // ---------------------------------------------------------------- cleanup after a failure

  /** The paths of every file of every upload field, field by field. */
  function FieldPaths(fields: seq<seq<string>>): (r: seq<string>)
    ensures forall p :: p in r <==> exists i :: 0 <= i < |fields| && p in fields[i]
  {
    if |fields| == 0 then []
    else
      var rest := FieldPaths(fields[1..]);
      forall p | p in fields[0] + rest ensures exists i :: 0 <= i < |fields| && p in fields[i] {
        if p !in fields[0] {
          var j :| 0 <= j < |fields| - 1 && p in fields[1..][j];
          assert fields[j + 1] == fields[1..][j];
        }
      }
      forall i, p | 1 <= i < |fields| && p in fields[i] ensures p in rest {
        assert fields[1..][i - 1] == fields[i];
      }
      fields[0] + rest
  }

  /** The local files `removeUnusedMulterImageFilesOnError` deletes for a failed request:
      the single uploaded file (`req.file`) first, then every file of every field of
      `req.files`. Nothing else is touched. */
  function UnusedUploads(file: Option<string>, fields: seq<seq<string>>): (r: seq<string>)
    ensures forall p :: p in r <==> file == Some(p) || exists i :: 0 <= i < |fields| && p in fields[i]
    ensures file.Some? ==> |r| > 0 && r[0] == file.value
    ensures file.None? && fields == [] ==> r == []
  {
    match file
    case Some(f) => [f] + FieldPaths(fields)
    case None => FieldPaths(fields)
  }

  // ---------------------------------------------------------------- file paths

  const LocalImagesPrefix := "public/images/"

  /** `getLocalPath(fileName)`: where an uploaded file lives, relative to the server root. */
  function LocalPath(fileName: string): (r: string)
    ensures LocalImagesPrefix <= r
    ensures r[|LocalImagesPrefix|..] == fileName
  {
    LocalImagesPrefix + fileName
  }

  /** `getStaticFilePath(req, fileName)`: the URL the file is served under. */
  function StaticFilePath(protocol: string, host: string, fileName: string): (r: string)
    ensures protocol + "://" + host <= r
    ensures Strs.EndsWith(r, "/images/" + fileName)
    ensures |r| == |protocol| + |host| + |fileName| + 11
  {
    protocol + "://" + host + "/images/" + fileName
  }

  /** Distinct files get distinct local paths, so deleting one path never removes another file. */
  lemma LocalPathInjective(a: string, b: string)
    ensures LocalPath(a) == LocalPath(b) <==> a == b
  {
    if LocalPath(a) == LocalPath(b) {
      assert a == LocalPath(a)[|LocalImagesPrefix|..];
    }
  }
}
