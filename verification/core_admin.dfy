/**
 * The site-wide admin (core/admin.py): the truncated description column of
 * the service list, and the permissions that keep the single site-settings
 * row from being added or deleted.
 */
module CoreAdmin {
  import opened Text

  // ---------------------------------------------------------------------------
  // `ServiceAdmin.short_description`
  // ---------------------------------------------------------------------------

  const ShortLimit: nat := 50
  const Ellipsis: string := "..."

  /** Up to 50 characters are shown as they are; a longer text is cut to 50 and marked with "...". */
  function ShortDescription(description: string): (shown: string)
    ensures |description| <= ShortLimit ==> shown == description
    ensures |description| > ShortLimit ==>
              |shown| == ShortLimit + |Ellipsis| && shown == description[..ShortLimit] + Ellipsis
    ensures exists k :: 0 <= k <= |shown| && k <= |description| && shown[..k] == description[..k]
                        && (k == |shown| || shown[k..] == Ellipsis)
  {
    if |description| > ShortLimit then
      var shown := description[..ShortLimit] + Ellipsis;
      assert shown[..ShortLimit] == description[..ShortLimit];
      shown
    else
      assert description[..|description|] == description;
      description
  }

  /** Shortening what is already shown changes nothing. */
  lemma ShortDescriptionIdempotent(description: string)
    ensures ShortDescription(ShortDescription(description)) == ShortDescription(description)
  {
    var shown := ShortDescription(description);
    if |description| > ShortLimit {
      assert shown[..ShortLimit] == description[..ShortLimit];
    }
  }

  /** Two descriptions show the same when they agree on their first 50 characters and are both long. */
  lemma LongTailsAreHidden(a: string, b: string)
    requires |a| > ShortLimit && |b| > ShortLimit && a[..ShortLimit] == b[..ShortLimit]
    ensures ShortDescription(a) == ShortDescription(b)
  {
  }

  // ---------------------------------------------------------------------------
  // Row requests: the add form, the delete confirmation and the change form
  // ---------------------------------------------------------------------------

  /**
   * Which whole-row requests an admin page permits. The change permission
   * is never taken away here, so every page keeps its change form.
   */
  datatype Permissions = Permissions(canAdd: bool, canDelete: bool)

  /** `SiteSettingsAdmin`: the settings row can be neither added nor deleted. */
  const SiteSettingsPermissions: Permissions := Permissions(false, false)

  /** A row-level admin request; an edit posts the change form of the row at `index`. */
  datatype RowRequest<T> = AddRow(row: T) | DeleteRow(index: nat) | EditRow(index: nat, row: T)

  /**
   * One request: refused (nothing changes) without the permission, and a
   * delete or edit of a missing row does nothing. `save(stored, posted)` is
   * the row the change form writes: the posted editable fields over the
   * stored read-only ones, or the stored row when the form does not validate.
   */
  function ApplyRequest<T>(perms: Permissions, save: (T, T) -> T, rows: seq<T>, req: RowRequest<T>): (r: seq<T>)
    ensures req.AddRow? && perms.canAdd ==> r == rows + [req.row]
    ensures req.DeleteRow? && perms.canDelete && req.index < |rows| ==>
              r == rows[..req.index] + rows[req.index + 1..]
    ensures req.EditRow? && req.index < |rows| ==> r == rows[req.index := save(rows[req.index], req.row)]
    ensures req.AddRow? && !perms.canAdd ==> r == rows
    ensures req.DeleteRow? && (!perms.canDelete || req.index >= |rows|) ==> r == rows
    ensures req.EditRow? && req.index >= |rows| ==> r == rows
  {
    match req
    case AddRow(row) => if perms.canAdd then rows + [row] else rows
    case DeleteRow(index) =>
      if perms.canDelete && index < |rows| then rows[..index] + rows[index + 1..] else rows
    case EditRow(index, posted) =>
      if index < |rows| then rows[index := save(rows[index], posted)] else rows
  }

  function ApplyAll<T>(perms: Permissions, save: (T, T) -> T, rows: seq<T>, reqs: seq<RowRequest<T>>): (r: seq<T>)
    decreases |reqs|
  {
    if |reqs| == 0 then rows else ApplyAll(perms, save, ApplyRequest(perms, save, rows, reqs[0]), reqs[1..])
  }

  /** The identity of each row (its primary key, or a read-only unique field), in order. */
  function Keys<T, K>(rows: seq<T>, key: T -> K): (ks: seq<K>)
    ensures |ks| == |rows| && forall i :: 0 <= i < |rows| ==> ks[i] == key(rows[i])
  {
    seq(|rows|, i requires 0 <= i < |rows| => key(rows[i]))
  }

  /** The change form cannot alter the key: it is the primary key or a read-only field. */
  ghost predicate KeepsKey<T(!new), K>(save: (T, T) -> T, key: T -> K) {
    forall stored, posted :: key(save(stored, posted)) == key(stored)
  }

  predicate NoEdits<T>(reqs: seq<RowRequest<T>>) {
    forall k :: 0 <= k < |reqs| ==> !reqs[k].EditRow?
  }

  /** Taking one element out of a sequence removes one occurrence of it. */
  lemma RemoveAt<T>(s: seq<T>, i: nat)
    requires i < |s|
    ensures multiset(s[..i] + s[i + 1..]) <= multiset(s)
  {
    assert s == s[..i] + [s[i]] + s[i + 1..];
  }

  /** Without add permission one request never grows the table, and anything but an edit only keeps or removes rows. */
  lemma RequestNeverGrows<T>(perms: Permissions, save: (T, T) -> T, rows: seq<T>, req: RowRequest<T>)
    requires !perms.canAdd
    ensures |ApplyRequest(perms, save, rows, req)| <= |rows|
    ensures !req.EditRow? ==> multiset(ApplyRequest(perms, save, rows, req)) <= multiset(rows)
  {
    if req.DeleteRow? && perms.canDelete && req.index < |rows| {
      RemoveAt(rows, req.index);
    }
  }

  /** Without add permission one request keeps the keys of the rows it keeps and adds none, when the form keeps keys. */
  lemma RequestKeepsKeys<T(!new), K>(perms: Permissions, save: (T, T) -> T, key: T -> K, rows: seq<T>, req: RowRequest<T>)
    requires !perms.canAdd && KeepsKey(save, key)
    ensures multiset(Keys(ApplyRequest(perms, save, rows, req), key)) <= multiset(Keys(rows, key))
  {
    if req.DeleteRow? && perms.canDelete && req.index < |rows| {
      DeleteKeepsKeys(key, rows, req.index);
    } else if req.EditRow? && req.index < |rows| {
      EditKeepsKeys(save, key, rows, req.index, req.row);
    }
  }

  lemma DeleteKeepsKeys<T, K>(key: T -> K, rows: seq<T>, i: nat)
    requires i < |rows|
    ensures multiset(Keys(rows[..i] + rows[i + 1..], key)) <= multiset(Keys(rows, key))
  {
    assert Keys(rows[..i] + rows[i + 1..], key) == Keys(rows, key)[..i] + Keys(rows, key)[i + 1..];
    RemoveAt(Keys(rows, key), i);
  }

  lemma EditKeepsKeys<T(!new), K>(save: (T, T) -> T, key: T -> K, rows: seq<T>, i: nat, posted: T)
    requires i < |rows| && KeepsKey(save, key)
    ensures Keys(rows[i := save(rows[i], posted)], key) == Keys(rows, key)
  {
  }

  /**
   * Without add permission no sequence of requests grows the table or adds
   * an identity to it; without edits no row at all is added.
   */
  lemma {:induction false} NoAddNeverGrows<T(!new), K>(
    perms: Permissions, save: (T, T) -> T, key: T -> K, rows: seq<T>, reqs: seq<RowRequest<T>>)
    requires !perms.canAdd
    ensures |ApplyAll(perms, save, rows, reqs)| <= |rows|
    ensures KeepsKey(save, key) ==> multiset(Keys(ApplyAll(perms, save, rows, reqs), key)) <= multiset(Keys(rows, key))
    ensures NoEdits(reqs) ==> multiset(ApplyAll(perms, save, rows, reqs)) <= multiset(rows)
    decreases |reqs|
  {
    if |reqs| > 0 {
      var next := ApplyRequest(perms, save, rows, reqs[0]);
      RequestNeverGrows(perms, save, rows, reqs[0]);
      if KeepsKey(save, key) {
        RequestKeepsKeys(perms, save, key, rows, reqs[0]);
      }
      NoAddNeverGrows(perms, save, key, next, reqs[1..]);
      if NoEdits(reqs) {
        assert !reqs[0].EditRow?;
        assert NoEdits(reqs[1..]) by {
          forall k | 0 <= k < |reqs[1..]| ensures !reqs[1..][k].EditRow? {
            assert reqs[1..][k] == reqs[k + 1];
          }
        }
      }
    }
  }

  /** One request to the settings page keeps the row count and the keys; only an edit changes a row. */
  lemma SettingsRequest<T(!new), K>(save: (T, T) -> T, key: T -> K, rows: seq<T>, req: RowRequest<T>)
    ensures |ApplyRequest(SiteSettingsPermissions, save, rows, req)| == |rows|
    ensures KeepsKey(save, key) ==> Keys(ApplyRequest(SiteSettingsPermissions, save, rows, req), key) == Keys(rows, key)
    ensures !req.EditRow? ==> ApplyRequest(SiteSettingsPermissions, save, rows, req) == rows
  {
  }

  /**
   * The settings table keeps exactly its rows: after any sequence of admin
   * requests it has as many rows, with the same keys in the same order, and
   * only the change form alters their contents.
   */
  lemma {:induction false} SiteSettingsFixed<T(!new), K>(save: (T, T) -> T, key: T -> K, rows: seq<T>, reqs: seq<RowRequest<T>>)
    ensures |ApplyAll(SiteSettingsPermissions, save, rows, reqs)| == |rows|
    ensures KeepsKey(save, key) ==> Keys(ApplyAll(SiteSettingsPermissions, save, rows, reqs), key) == Keys(rows, key)
    ensures NoEdits(reqs) ==> ApplyAll(SiteSettingsPermissions, save, rows, reqs) == rows
    decreases |reqs|
  {
    if |reqs| > 0 {
      var next := ApplyRequest(SiteSettingsPermissions, save, rows, reqs[0]);
      SettingsRequest(save, key, rows, reqs[0]);
      SiteSettingsFixed(save, key, next, reqs[1..]);
      if NoEdits(reqs) {
        assert !reqs[0].EditRow?;
        assert NoEdits(reqs[1..]) by {
          forall k | 0 <= k < |reqs[1..]| ensures !reqs[1..][k].EditRow? {
            assert reqs[1..][k] == reqs[k + 1];
          }
        }
      }
    }
  }
}
