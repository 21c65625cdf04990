/**
 * `TemplateRepo`: the `template` table and the folder `public/<name>` (with its
 * `sent/` sub-folder) that belongs to each template.  Create, update and delete
 * change both; every error they meet is rethrown as an `InternalServerError`
 * carrying the original message.
 */
module TemplateRepo {
  import opened Wrappers
  import opened Errors
  import opened Delivery
  import opened Folders

  /** A row of the `template` table; `type` (here `template_type`) is nullable. The database's UUID key is an `Id` handed out by the repo. */
  datatype Template = Template(name: string, template_type: Option<TemplateType>, recipient_number_column: string, sms_template: string)

  /** `CreateTemplateDTO`. */
  datatype CreateTemplate = CreateTemplate(name: string, template_type: Option<TemplateType>, recipient_number_column: string, sms_template: string)

  /**
   * `UpdateTemplateDTO`: `None` is a field left out of the request. For `type` (`template_type`),
   * `Some(None)` is an explicit `null`, which is written into the row.
   */
  datatype UpdateTemplate = UpdateTemplate(
    name: Option<string>, template_type: Option<Option<TemplateType>>,
    recipient_number_column: Option<string>, sms_template: Option<string>)

  const TemplateNotFoundMessage := "Shablon topilmadi!"
  const NotEmptyMessage := "Shablon papkasini o'chirib bo'lmaydi. Ichida fayllar mavjud."
  const DeletedMessage := "Shablon muvaffaqiyatli o'chirildi"
  const FolderMissingDeletedMessage := "Shablon papkasi topilmadi, lekin DBdan o'chirildi"

  function FolderExistsMessage(name: string): string {
    "'" + name + "' nomli shablon papkasi allaqachon mavjud"
  }

  function OldFolderMissingMessage(oldName: string): string {
    "Papka topilmadi, eski nom: " + oldName
  }

  function NewFolderExistsMessage(newName: string): string {
    "Yangi nom '" + newName + "' bilan papka mavjud, rename imkonsiz"
  }

  /** The `catch` of create, update and delete: whatever was thrown becomes a 500 with the same message. */
  function Rethrown(e: Thrown): (t: Thrown)
    ensures t.Base? && t.error.statusCode == 500 && t.Message() == e.Message()
    ensures ClassOfStatus(t.error.statusCode) == Some(InternalServerError)
  {
    InternalServer(e.Message())
  }

  /** The entry `public/<name>`, of any kind, when it exists. */
  function FolderOf(public: Option<seq<Entry>>, name: string): (r: Option<Entry>)
    ensures r.Some? <==> public.Some? && Has(public.value, name)
    ensures r.Some? ==> r.value.name == name && r.value in public.value
  {
    if public.None? then None else Lookup(public.value, name)
  }

  /** The row after an update: the new name, and each other field replaced only when the request carries it. */
  function Patched(t: Template, data: UpdateTemplate, newName: string): (u: Template)
    ensures u.name == newName
    ensures u.template_type == (if data.template_type.Some? then data.template_type.value else t.template_type)
    ensures u.recipient_number_column == data.recipient_number_column.GetOr(t.recipient_number_column)
    ensures u.sms_template == data.sms_template.GetOr(t.sms_template)
    ensures data == UpdateTemplate(None, None, None, None) ==> u == t.(name := newName)
  {
    Template(
      newName,
      if data.template_type.Some? then data.template_type.value else t.template_type,
      data.recipient_number_column.GetOr(t.recipient_number_column),
      data.sms_template.GetOr(t.sms_template))
  }

  /**
   * What stops `delete` from removing a template folder with these entries: a
   * `sent` that is not a directory fails to be listed, and anything in `sent/` or
   * beside it makes the folder not empty.
   */
  function DeleteBlocker(entries: seq<Entry>): (r: Option<Thrown>)
    ensures r.Some? ==> r.value == Plain(NotADirectory) || r.value == BadRequest(NotEmptyMessage)
  {
    match Lookup(entries, "sent")
    case Some(FileEntry(_, _)) => Some(Plain(NotADirectory))
    case _ =>
      var sentBusy := match Lookup(entries, "sent") case Some(DirEntry(_, inner)) => inner != [] case _ => false;
      if sentBusy || Without(entries, "sent") != [] then Some(BadRequest(NotEmptyMessage)) else None
  }

  /** A folder can be removed exactly when it is empty or holds nothing but an empty `sent/`. */
  lemma {:induction false} DeletableIff(entries: seq<Entry>)
    requires WellFormed(entries)
    ensures DeleteBlocker(entries).None? <==> entries == [] || entries == [DirEntry("sent", [])]
  {
    if entries == [] {
    } else if entries == [DirEntry("sent", [])] {
      assert Lookup(entries, "sent") == Some(DirEntry("sent", []));
      assert entries[1..] == [];
      assert Without(entries, "sent") == [];
    } else if Without(entries, "sent") == [] {
      OnlySent(entries);
      assert Lookup(entries, "sent") == Some(entries[0]);
    }
  }

  /** A well-formed directory whose only names are `sent` holds one entry. */
  lemma OnlySent(entries: seq<Entry>)
    requires WellFormed(entries) && entries != [] && Without(entries, "sent") == []
    ensures entries == [entries[0]] && entries[0].name == "sent"
  {
    assert entries[0] in entries;
  }

  /** The `template` table, and the `public/` directory it keeps in step with. */
  class TemplateRepo {
    var templates: map<Id, Template>
    var nextId: Id
    const disk: Disk

    /** Ids are handed out in order, template names are single path components, and the directory is well formed. */
    ghost predicate Valid()
      reads this, disk
    {
      disk.Valid()
      && (forall id :: id in templates ==> id < nextId)
      && (forall id :: id in templates ==> IsComponent(templates[id].name))
    }

    constructor(disk: Disk)
      requires disk.Valid()
      ensures Valid() && templates == map[] && nextId == 0 && this.disk == disk
    {
      templates := map[];
      nextId := 0;
      this.disk := disk;
    }

    /** `findById(id)`: the row, or NotFound. */
    function FindById(id: Id): (r: Result<Template, Thrown>)
      reads this
      ensures r.Ok? <==> id in templates
      ensures r.Ok? ==> r.value == templates[id]
      ensures r.Err? ==> r.error == NotFound(TemplateNotFoundMessage) && r.error.error.statusCode == 404
    {
      if id in templates then Ok(templates[id]) else Err(NotFound(TemplateNotFoundMessage))
    }

    /** `findByName(name)`: a row whose name equals `name` exactly, here the one with the lowest id; `None` for `null`. */
    method FindByName(name: string) returns (r: Option<Id>)
      requires Valid()
      ensures r.Some? ==> r.value in templates && templates[r.value].name == name
      ensures r.Some? ==> forall id :: id in templates && id < r.value ==> templates[id].name != name
      ensures r.None? ==> forall id :: id in templates ==> templates[id].name != name
    {
      var id := 0;
      while id < nextId
        invariant id <= nextId
        invariant forall k :: k in templates && k < id ==> templates[k].name != name
      {
        if id in templates && templates[id].name == name {
          return Some(id);
        }
        id := id + 1;
      }
      r := None;
    }

    /**
     * `create(data)`: refuses an existing `public/<name>`; otherwise makes
     * `public/<name>` and `public/<name>/sent`, then inserts the row.
     */
    method Create(data: CreateTemplate) returns (r: Result<Id, Thrown>)
      requires Valid() && IsComponent(data.name)
      modifies this, disk
      ensures Valid()
      ensures r.Err? ==> r.error.Base? && r.error.error.statusCode == 500
      ensures r.Err? ==> templates == old(templates) && nextId == old(nextId) && disk.public == old(disk.public)
      ensures old(FolderOf(disk.public, data.name)).Some? ==> r == Err(Rethrown(Conflict(FolderExistsMessage(data.name))))
      ensures old(disk.public).None? ==> r == Err(Rethrown(Plain(NoSuchEntry)))
      ensures old(disk.public).Some? && old(FolderOf(disk.public, data.name)).None? ==>
        r == Ok(old(nextId))
        && disk.public == Some(old(disk.public.value) + [DirEntry(data.name, [DirEntry("sent", [])])])
        && templates == old(templates)[old(nextId) := Template(data.name, data.template_type, data.recipient_number_column, data.sms_template)]
        && nextId == old(nextId) + 1
    {
      if FolderOf(disk.public, data.name).Some? {
        return Err(Rethrown(Conflict(FolderExistsMessage(data.name))));
      }
      if disk.public.None? {
        return Err(Rethrown(Plain(NoSuchEntry)));
      }
      var folder := DirEntry(data.name, [DirEntry("sent", [])]);
      assert WellFormed(folder.entries);
      WellFormedAppend(disk.public.value, folder);
      disk.public := Some(disk.public.value + [folder]);
      var id := nextId;
      templates := templates[id := Template(data.name, data.template_type, data.recipient_number_column, data.sms_template)];
      nextId := nextId + 1;
      r := Ok(id);
    }

    /**
     * `update(id, data)`: a changed name needs `public/<old>` present and
     * `public/<new>` absent and renames the folder; an unchanged one leaves the
     * directory alone. The row gets the new name and the fields the request carries.
     */
    method Update(id: Id, data: UpdateTemplate) returns (r: Result<Template, Thrown>)
      requires Valid()
      requires data.name.Some? ==> IsComponent(data.name.value)
      modifies this, disk
      ensures Valid() && nextId == old(nextId)
      ensures r.Err? ==> r.error.Base? && r.error.error.statusCode == 500
      ensures r.Err? ==> templates == old(templates) && disk.public == old(disk.public)
      ensures id !in old(templates) ==> r == Err(Rethrown(NotFound(TemplateNotFoundMessage)))
      ensures id in old(templates) ==>
        var t := old(templates[id]);
        var newName := data.name.GetOr(t.name);
        if newName == t.name then
          r == Ok(Patched(t, data, newName)) && templates == old(templates)[id := Patched(t, data, newName)]
          && disk.public == old(disk.public)
        else if old(FolderOf(disk.public, t.name)).None? then
          r == Err(Rethrown(NotFound(OldFolderMissingMessage(t.name))))
        else if old(FolderOf(disk.public, newName)).Some? then
          r == Err(Rethrown(Conflict(NewFolderExistsMessage(newName))))
        else
          r == Ok(Patched(t, data, newName)) && templates == old(templates)[id := Patched(t, data, newName)]
          && disk.public == Some(RenameAt(old(disk.public.value), Find(old(disk.public.value), t.name).value, newName))
    {
      if id !in templates {
        return Err(Rethrown(NotFound(TemplateNotFoundMessage)));
      }
      var oldTemplate := templates[id];
      var oldName := oldTemplate.name;
      var newName := data.name.GetOr(oldName);
      if newName != oldName {
        if FolderOf(disk.public, oldName).None? {
          return Err(Rethrown(NotFound(OldFolderMissingMessage(oldName))));
        }
        if FolderOf(disk.public, newName).Some? {
          return Err(Rethrown(Conflict(NewFolderExistsMessage(newName))));
        }
        var i := Find(disk.public.value, oldName).value;
        WellFormedRename(disk.public.value, i, newName);
        disk.public := Some(RenameAt(disk.public.value, i, newName));
      }
      var updated := Patched(oldTemplate, data, newName);
      templates := templates[id := updated];
      r := Ok(updated);
    }

    /**
     * `delete(id)`: with `public/<name>` missing, removes the row only; otherwise
     * removes folder and row together, and only when the folder is empty but for
     * an empty `sent/`.
     */
    method Delete(id: Id) returns (r: Result<string, Thrown>)
      requires Valid()
      modifies this, disk
      ensures Valid() && nextId == old(nextId)
      ensures r.Err? ==> r.error.Base? && r.error.error.statusCode == 500
      ensures r.Err? ==> templates == old(templates) && disk.public == old(disk.public)
      ensures id !in old(templates) ==> r == Err(Rethrown(NotFound(TemplateNotFoundMessage)))
      ensures id in old(templates) ==>
        var folder := old(FolderOf(disk.public, templates[id].name));
        if folder.None? then
          r == Ok(FolderMissingDeletedMessage) && templates == old(templates) - {id} && disk.public == old(disk.public)
        else if folder.value.FileEntry? then
          r == Err(Rethrown(Plain(NotADirectory)))
        else if DeleteBlocker(folder.value.entries).Some? then
          r == Err(Rethrown(DeleteBlocker(folder.value.entries).value))
        else
          r == Ok(DeletedMessage) && templates == old(templates) - {id}
          && disk.public == Some(Without(old(disk.public.value), folder.value.name))
    {
      if id !in templates {
        return Err(Rethrown(NotFound(TemplateNotFoundMessage)));
      }
      var name := templates[id].name;
      var folder := FolderOf(disk.public, name);
      if folder.None? {
        templates := templates - {id};
        return Ok(FolderMissingDeletedMessage);
      }
      if folder.value.FileEntry? {
        return Err(Rethrown(Plain(NotADirectory)));
      }
      var blocker := DeleteBlocker(folder.value.entries);
      if blocker.Some? {
        return Err(Rethrown(blocker.value));
      }
      WellFormedWithout(disk.public.value, name);
      disk.public := Some(Without(disk.public.value, name));
      templates := templates - {id};
      r := Ok(DeletedMessage);
    }
  }

  // ---- properties -------------------------------------------------------------------

  /** Conflict, NotFound and BadRequest never leave the repo with their own status codes. */
  lemma RethrownHidesClass(c: ErrorClass, message: string)
    ensures Rethrown(Base(New(c, Some(message)))) == InternalServer(message)
    ensures c != InternalServerError ==> Rethrown(Base(New(c, Some(message)))).error.statusCode != StatusOf(c)
  {
  }

  /** A freshly created template folder is deletable: create followed by delete is allowed to succeed. */
  lemma NewFolderIsDeletable()
    ensures DeleteBlocker([DirEntry("sent", [])]).None?
  {
    DeletableIff([DirEntry("sent", [])]);
  }

  /** Anything in a template folder but an empty `sent/` blocks its deletion. */
  lemma {:induction false} ContentBlocksDelete(entries: seq<Entry>)
    requires WellFormed(entries) && entries != [] && entries != [DirEntry("sent", [])]
    ensures DeleteBlocker(entries).Some?
  {
    DeletableIff(entries);
  }
}
