/**
 * executeCommand of main.c: the command read by getCommand selects one
 * operation. Only the entity operations change anything; the relation
 * operations and the report have empty bodies in this version.
 */
module Dispatch {
  import opened Hash
  import opened Entities

  /** The commands that act on the entity table. */
  predicate IsEntityCommand(command: string)
  {
    command == "addent" || command == "delent"
  }

  /** The entity table after executing `command` with first name `ent1`. */
  function Executed(t: seq<seq<string>>, command: string, ent1: string): (r: seq<seq<string>>)
    requires |t| == HASH_SIZE_ENT
    requires IsEntityCommand(command) ==> Indexable(ent1)
    ensures |r| == |t|
    ensures !IsEntityCommand(command) ==> r == t
    ensures IsEntityCommand(command) ==> forall i :: 0 <= i < |t| && i != Bucket(ent1) ==> r[i] == t[i]
    ensures Count(t) <= Count(r) <= Count(t) + 1
    ensures command != "addent" ==> Count(r) == Count(t)
    ensures Placed(t) ==> Placed(r)
  {
    if command == "addent" then AddedTable(t, ent1)
    else if command == "delent" then DeletedTable(t, ent1)
    else t
  }

  /** addRelation: empty in this version. */
  method AddRelation(orig: string, dest: string, relName: string)
  {
  }

  /** deleteRelation: empty in this version. */
  method DeleteRelation(orig: string, dest: string, relName: string)
  {
  }

  /** printReport: empty in this version. */
  method PrintReport()
  {
  }

  /** executeCommand: run the operation the command names; any other command does nothing. */
  method ExecuteCommand(table: EntityTable, command: string, ent1: string, ent2: string, rel: string)
    requires table.Valid()
    requires IsEntityCommand(command) ==> Indexable(ent1)
    modifies table.buckets
    ensures table.Valid()
    ensures table.buckets[..] == Executed(old(table.buckets[..]), command, ent1)
  {
    if command == "addent" {
      table.AddEntity(ent1);
      return;
    } else if command == "addrel" {
      AddRelation(ent1, ent2, rel);
      return;
    } else if command == "delent" {
      table.DeleteEntity(ent1);
      return;
    } else if command == "delrel" {
      DeleteRelation(ent1, ent2, rel);
      return;
    } else if command == "report" {
      PrintReport();
      return;
    }
  }
}
