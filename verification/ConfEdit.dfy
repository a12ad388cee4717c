/** `applyEdits`: a batch of edits written to a conf file, one yq call at a time, the three
    maps of the batch walked in an order that nothing fixes. */
module ConfEdit {

  import opened Text
  import opened ConfDocument
  import opened EditConfluence
  import opened EditOrder

  lemma WalkStep(order: seq<string>, keys: set<string>, todo: set<string>, k: string)
    requires Enumerates(order, keys - todo) && todo <= keys && k in todo
    ensures Enumerates(order + [k], keys - (todo - {k}))
  {
    assert forall x :: x in order + [k] <==> x in order || x == k;
  }

  class ConfFile {
    var doc: Document

    constructor (d: Document)
      ensures doc == d
    {
      doc := d;
    }

    /** `yqEdit`, when it succeeds. */
    method YqEdit(e: Yq)
      modifies this
      ensures doc == Eval(e, old(doc))
    {
      doc := Eval(e, doc);
    }

    method EditHost(ip: string, p: Patch)
      modifies this
      ensures doc == Run(HostCalls(ip, p), old(doc))
    {
      if p.note.Some? {
        RunOne(SetHostName(ip, p.note.value), doc);
        YqEdit(SetHostName(ip, p.note.value));
      }
      if p.tags.Some? {
        RunOne(SetHostTags(ip, p.tags.value), doc);
        RunAppend(if p.note.Some? then [SetHostName(ip, p.note.value)] else [],
                  [SetHostTags(ip, p.tags.value)], old(doc));
        YqEdit(SetHostTags(ip, p.tags.value));
      } else {
        assert HostCalls(ip, p) == if p.note.Some? then [SetHostName(ip, p.note.value)] else [];
      }
    }

    /** `subnetUpsert`, once per field. */
    method EditSubnet(c: string, p: Patch)
      modifies this
      ensures doc == Run(SubnetCalls(c, p), old(doc))
    {
      if p.note.Some? {
        RunOne(UpsertSubnet(c, Patch(p.note, None)), doc);
        YqEdit(UpsertSubnet(c, Patch(p.note, None)));
      }
      if p.tags.Some? {
        RunOne(UpsertSubnet(c, Patch(None, p.tags)), doc);
        RunAppend(if p.note.Some? then [UpsertSubnet(c, Patch(p.note, None))] else [],
                  [UpsertSubnet(c, Patch(None, p.tags))], old(doc));
        YqEdit(UpsertSubnet(c, Patch(None, p.tags)));
      } else {
        assert SubnetCalls(c, p) == if p.note.Some? then [UpsertSubnet(c, Patch(p.note, None))] else [];
      }
    }

    method EditHosts(edits: map<string, Patch>) returns (ghost order: seq<string>)
      modifies this
      ensures Enumerates(order, edits.Keys)
      ensures doc == Run(HostsProgram(edits, order), old(doc))
    {
      var todo := edits.Keys;
      order := [];
      while todo != {}
        invariant todo <= edits.Keys && Enumerates(order, edits.Keys - todo)
        invariant doc == Run(HostsProgram(edits, order), old(doc))
        decreases |todo|
      {
        var ip :| ip in todo;
        HostsStep(edits, order, ip, old(doc));
        WalkStep(order, edits.Keys, todo, ip);
        EditHost(ip, edits[ip]);
        order := order + [ip];
        todo := todo - {ip};
      }
      assert edits.Keys - todo == edits.Keys;
    }

    method EditForwards(notes: map<string, string>) returns (ghost order: seq<string>)
      modifies this
      ensures Enumerates(order, notes.Keys)
      ensures doc == Run(ForwardsProgram(notes, order), old(doc))
    {
      var todo := notes.Keys;
      order := [];
      while todo != {}
        invariant todo <= notes.Keys && Enumerates(order, notes.Keys - todo)
        invariant doc == Run(ForwardsProgram(notes, order), old(doc))
        decreases |todo|
      {
        var k :| k in todo;
        ForwardsStep(notes, order, k, old(doc));
        WalkStep(order, notes.Keys, todo, k);
        RunOne(ForwardCall(k, notes[k]), doc);
        YqEdit(ForwardCall(k, notes[k]));
        order := order + [k];
        todo := todo - {k};
      }
      assert notes.Keys - todo == notes.Keys;
    }

    method EditSubnets(edits: map<string, Patch>) returns (ghost order: seq<string>)
      modifies this
      ensures Enumerates(order, edits.Keys)
      ensures doc == Run(SubnetsProgram(edits, order), old(doc))
    {
      var todo := edits.Keys;
      order := [];
      while todo != {}
        invariant todo <= edits.Keys && Enumerates(order, edits.Keys - todo)
        invariant doc == Run(SubnetsProgram(edits, order), old(doc))
        decreases |todo|
      {
        var c :| c in todo;
        SubnetsStep(edits, order, c, old(doc));
        WalkStep(order, edits.Keys, todo, c);
        EditSubnet(c, edits[c]);
        order := order + [c];
        todo := todo - {c};
      }
      assert edits.Keys - todo == edits.Keys;
    }

    /** `applyEdits`, on some walk that nothing fixes: the document is as the closed form says
        for that walk, and for a batch without clashes as for every other walk. */
    method ApplyEdits(e: Edit) returns (ghost w: Walk)
      modifies this
      ensures Walks(w, e) && doc == Applied(old(doc), e, w)
      ensures CidrKeys(e.subnets) ==> doc == Edited(old(doc), e, w)
      ensures CidrKeys(e.subnets) && !Clash(e) ==>
                forall v :: Walks(v, e) ==> SameButSubnetOrder(doc, Applied(old(doc), e, v))
    {
      ghost var start := doc;
      EditTunnel(e);
      ghost var hosts := EditHosts(e.hosts);
      ghost var forwards := EditForwards(e.forwards);
      ghost var subnets := EditSubnets(e.subnets);
      w := Walk(hosts, forwards, subnets);
      if CidrKeys(e.subnets) {
        AppliedIsEdited(start, e, w);
        ConfluentIff(e);
      }
    }

    method EditTunnel(e: Edit)
      modifies this
      ensures doc == Run(TunnelCalls(e), old(doc))
    {
      TunnelEdited(e, doc);
      if e.name.Some? {
        YqEdit(SetName(e.name.value));
      }
      if e.tags.Some? {
        YqEdit(SetTags(e.tags.value));
      }
    }
  }
}
